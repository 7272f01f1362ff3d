/**
 * The naming convention that `rten-examples/src/generator.rs` relies on to
 * pair a transformer's key-value cache inputs with their outputs: input
 * `past_key_values.<N>.key` (or `.value`) is fed from output
 * `present.<N>.key` (or `.value`) of the previous step, with `<N>` the layer
 * index written in decimal.
 */
module KvNames {
  import opened Wrappers

  const MaxU32: nat := 0xffff_ffff

  predicate IsDigit(c: char) { '0' <= c <= '9' }

  predicate AllDigits(s: string)
  {
    forall i :: 0 <= i < |s| ==> IsDigit(s[i])
  }

  function DigitChar(d: nat): (c: char)
    requires d < 10
    ensures IsDigit(c) && c as int - '0' as int == d
  {
    ('0' as int + d) as char
  }

  /** The value of a run of decimal digits; leading zeros count for nothing. */
  function ParseDigits(s: string): nat
    requires AllDigits(s)
  {
    if s == [] then 0 else ParseDigits(s[..|s| - 1]) * 10 + (s[|s| - 1] as int - '0' as int)
  }

  /** `n` in decimal, without leading zeros, as `format!("{}", n)` writes it. */
  function Decimal(n: nat): (r: string)
    ensures |r| >= 1 && AllDigits(r)
    ensures r[0] == '0' <==> n == 0
    ensures n == 0 ==> r == "0"
  {
    if n < 10 then [DigitChar(n)] else Decimal(n / 10) + [DigitChar(n % 10)]
  }

  /** Reading back what `Decimal` wrote gives the number. */
  lemma {:induction false} ParseDecimal(n: nat)
    ensures ParseDigits(Decimal(n)) == n
  {
    if n >= 10 {
      ParseDecimal(n / 10);
      var s := Decimal(n);
      assert s[..|s| - 1] == Decimal(n / 10);
    }
  }

  /** A decimal numeral as `Decimal` writes them: digits only, and no leading zero unless it is "0". */
  predicate Canonical(s: string)
  {
    |s| >= 1 && AllDigits(s) && (s[0] == '0' ==> s == "0")
  }

  /** A canonical numeral is what `Decimal` writes for its value. */
  lemma {:induction false} DecimalParse(s: string)
    requires Canonical(s)
    ensures Decimal(ParseDigits(s)) == s
  {
    if |s| > 1 {
      var init := s[..|s| - 1];
      assert init[0] == s[0];
      DecimalParse(init);
      var n := ParseDigits(s);
      var m := ParseDigits(init);
      assert init[0] != '0';
      assert n / 10 == m && n % 10 == s[|s| - 1] as int - '0' as int;
      assert s == init + [s[|s| - 1]];
    }
  }

  /** The longest run of digits `s` starts with, as `take_while(is_ascii_digit)` collects it. */
  function TakeDigits(s: string): (r: string)
    ensures |r| <= |s| && r == s[..|r|] && AllDigits(r)
    ensures |r| < |s| ==> !IsDigit(s[|r|])
  {
    if s == [] || !IsDigit(s[0]) then [] else [s[0]] + TakeDigits(s[1..])
  }

  lemma {:induction false} TakeDigitsStops(digits: string, rest: string)
    requires AllDigits(digits)
    requires rest == [] || !IsDigit(rest[0])
    ensures TakeDigits(digits + rest) == digits
  {
    if digits != [] {
      assert (digits + rest)[1..] == digits[1..] + rest;
      TakeDigitsStops(digits[1..], rest);
    }
  }

  /** `str::parse::<u32>` of a run of digits: empty and too-large runs fail. */
  function ParseU32(digits: string): (r: Option<nat>)
    requires AllDigits(digits)
    ensures r.Some? ==> r.value <= MaxU32 && r.value == ParseDigits(digits)
    ensures r.None? <==> digits == [] || ParseDigits(digits) > MaxU32
  {
    if digits == [] || ParseDigits(digits) > MaxU32 then None else Some(ParseDigits(digits))
  }

  predicate StartsWith(s: string, prefix: string)
  {
    |prefix| <= |s| && s[..|prefix|] == prefix
  }

  predicate EndsWith(s: string, suffix: string)
  {
    |suffix| <= |s| && s[|s| - |suffix|..] == suffix
  }

  const InputPrefix: string := "past_key_values."

  /** Whether a cache input holds keys (`.key`) or values. */
  function CacheType(name: string): string
  {
    if EndsWith(name, ".key") then "key" else "value"
  }

  /** The layer index a cache input's name gives, from the digits right after the prefix. */
  function LayerIndex(name: string): (r: Option<nat>)
    requires StartsWith(name, InputPrefix)
    ensures r.Some? ==> r.value <= MaxU32
  {
    ParseU32(TakeDigits(name[|InputPrefix|..]))
  }

  /** The name of the output that updates the cache of layer `layer`. */
  function OutputName(layer: nat, cacheType: string): string
  {
    "present." + Decimal(layer) + "." + cacheType
  }

  /** The name of the cache input of layer `layer`. */
  function InputName(layer: nat, cacheType: string): string
  {
    InputPrefix + Decimal(layer) + "." + cacheType
  }

  /** An input named by the convention yields its layer index back. */
  lemma LayerIndexOfInputName(layer: nat, cacheType: string)
    requires layer <= MaxU32
    ensures StartsWith(InputName(layer, cacheType), InputPrefix)
    ensures LayerIndex(InputName(layer, cacheType)) == Some(layer)
  {
    var name := InputName(layer, cacheType);
    assert name[..|InputPrefix|] == InputPrefix;
    assert name[|InputPrefix|..] == Decimal(layer) + ("." + cacheType);
    TakeDigitsStops(Decimal(layer), "." + cacheType);
    ParseDecimal(layer);
  }

  /** The cache type is read back from the suffix. */
  lemma CacheTypeOfInputName(layer: nat, cacheType: string)
    requires cacheType == "key" || cacheType == "value"
    ensures EndsWith(InputName(layer, cacheType), "." + cacheType)
    ensures CacheType(InputName(layer, cacheType)) == cacheType
  {
    var name := InputName(layer, cacheType);
    assert name == (InputPrefix + Decimal(layer)) + ("." + cacheType);
    assert name[|name| - |"." + cacheType|..] == "." + cacheType;
    if cacheType == "value" {
      assert name[|name| - 4..] == "alue";
    }
  }

  /** A name whose prefix is not followed by a digit has no layer index. */
  lemma NoDigitNoLayer(name: string)
    requires StartsWith(name, InputPrefix)
    requires |name| == |InputPrefix| || !IsDigit(name[|InputPrefix|])
    ensures LayerIndex(name) == None
  {
  }

  /** A leading zero is dropped: `past_key_values.07.key` pairs with `present.7.key`. */
  lemma LeadingZeroDropped()
    ensures LayerIndex("past_key_values.07.key") == Some(7)
  {
    var name := "past_key_values.07.key";
    assert name[..|InputPrefix|] == InputPrefix;
    assert name[|InputPrefix|..] == "07" + ".key";
    TakeDigitsStops("07", ".key");
    assert "07"[..1] == "0" && "0"[..0] == "";
    assert ParseDigits("07") == 7;
  }
}
