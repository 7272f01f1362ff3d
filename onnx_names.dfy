/**
 * `snake_case_to_pascal_case` of `tools/convert-onnx.py`, which turns an
 * ONNX enum attribute value such as `round_prefer_floor` into the name of
 * the matching schema enum variant, `RoundPreferFloor`.
 *
 * Python's `str.split`, indexing and `str.upper` are modelled on ASCII: an
 * empty segment (an empty string, or a leading, trailing or doubled `_`)
 * makes `word[0]` raise `IndexError`, which is `None` here.
 */
module OnnxNames {
  import opened Wrappers

  /** `s.split(sep)`: the pieces between the separators, at least one, possibly empty. */
  function Split(s: string, sep: char): (r: seq<string>)
    ensures |r| >= 1
    ensures forall i :: 0 <= i < |r| ==> sep !in r[i]
  {
    if |s| == 0 then [""]
    else
      var rest := Split(s[1..], sep);
      if s[0] == sep then [""] + rest else [[s[0]] + rest[0]] + rest[1..]
  }

  /** `sep.join(words)`. */
  function Join(words: seq<string>, sep: char): string
    requires |words| >= 1
  {
    if |words| == 1 then words[0] else words[0] + [sep] + Join(words[1..], sep)
  }

  /** Joining the pieces of a split gives back the string. */
  lemma {:induction false} JoinSplit(s: string, sep: char)
    ensures Join(Split(s, sep), sep) == s
  {
    if |s| > 0 {
      JoinSplit(s[1..], sep);
      var rest := Split(s[1..], sep);
      if s[0] == sep {
        assert Join(Split(s, sep), sep) == "" + [sep] + Join(rest, sep);
      } else if |rest| == 1 {
        assert Split(s, sep) == [[s[0]] + rest[0]];
      } else {
        assert Split(s, sep)[1..] == rest[1..];
        assert Join(Split(s, sep), sep) == [s[0]] + rest[0] + [sep] + Join(rest[1..], sep);
      }
    }
  }

  /** Splitting a join of separator-free words gives back the words. */
  lemma {:induction false} SplitJoin(words: seq<string>, sep: char)
    requires |words| >= 1 && forall i :: 0 <= i < |words| ==> sep !in words[i]
    ensures Split(Join(words, sep), sep) == words
    decreases |Join(words, sep)|
  {
    var w := words[0];
    if |w| > 0 {
      var shorter := [w[1..]] + words[1..];
      assert shorter[1..] == words[1..];
      var s := Join(words, sep);
      assert s == [w[0]] + Join(shorter, sep) by {
        if |words| > 1 {
          assert Join(shorter, sep) == w[1..] + [sep] + Join(words[1..], sep);
        }
      }
      assert s[1..] == Join(shorter, sep);
      SplitJoin(shorter, sep);
      assert w[0] in w;
      assert [w[0]] + w[1..] == w;
      assert Split(s, sep) == [[w[0]] + w[1..]] + words[1..];
    } else if |words| > 1 {
      SplitJoin(words[1..], sep);
      assert Join(words, sep) == [sep] + Join(words[1..], sep);
    }
  }

  predicate IsLower(c: char) { 'a' <= c <= 'z' }

  predicate IsUpper(c: char) { 'A' <= c <= 'Z' }

  /** `c.upper()` for an ASCII character. */
  function Upper(c: char): (r: char)
    ensures IsLower(c) ==> IsUpper(r) && Lower(r) == c
    ensures !IsLower(c) ==> r == c
  {
    if IsLower(c) then (c as int - 32) as char else c
  }

  /** `c.lower()` for an ASCII character. */
  function Lower(c: char): char
  {
    if IsUpper(c) then (c as int + 32) as char else c
  }

  /** `word[0].upper() + word[1:]`, or `None` where `word[0]` raises. */
  function Capitalize(word: string): (r: Option<string>)
    ensures r.Some? <==> |word| > 0
  {
    if |word| == 0 then None else Some([Upper(word[0])] + word[1..])
  }

  /** The capitalized words run together, or `None` when one of them is empty. */
  function CapitalizeAll(words: seq<string>): (r: Option<string>)
    ensures r.Some? <==> forall i :: 0 <= i < |words| ==> |words[i]| > 0
  {
    if |words| == 0 then Some("")
    else
      match Capitalize(words[0])
      case None => None
      case Some(head) =>
        match CapitalizeAll(words[1..])
        case None => None
        case Some(tail) => Some(head + tail)
  }

  /** `snake_case_to_pascal_case`. */
  function SnakeToPascal(s: string): Option<string>
  {
    CapitalizeAll(Split(s, '_'))
  }

  /** Every segment is non-empty, starts with a lower-case letter and holds no upper-case letter. */
  predicate SnakeWord(w: string)
  {
    |w| > 0 && IsLower(w[0]) && forall i :: 0 <= i < |w| ==> !IsUpper(w[i])
  }

  /** A snake_case name: lower-case words joined by single underscores. */
  predicate IsSnake(s: string)
  {
    var words := Split(s, '_');
    forall i :: 0 <= i < |words| ==> SnakeWord(words[i])
  }

  /**
   * The reverse conversion: an underscore before every upper-case letter
   * but the first one, and every upper-case letter made lower-case.
   */
  function PascalToSnake(t: string, first: bool): string
  {
    if |t| == 0 then ""
    else if IsUpper(t[0]) then (if first then "" else "_") + [Lower(t[0])] + PascalToSnake(t[1..], false)
    else [t[0]] + PascalToSnake(t[1..], false)
  }

  lemma {:induction false} PascalToSnakeAppend(a: string, b: string, first: bool)
    requires |a| > 0
    ensures PascalToSnake(a + b, first) == PascalToSnake(a, first) + PascalToSnake(b, false)
  {
    assert (a + b)[1..] == a[1..] + b;
    if |a| > 1 {
      PascalToSnakeAppend(a[1..], b, false);
    }
  }

  lemma {:induction false} PascalToSnakeNoUpper(w: string, first: bool)
    requires forall i :: 0 <= i < |w| ==> !IsUpper(w[i])
    ensures PascalToSnake(w, first) == w
  {
    if |w| > 0 {
      PascalToSnakeNoUpper(w[1..], false);
    }
  }

  /** A capitalized snake word converts back to an underscore (unless first) and the word. */
  lemma PascalToSnakeWord(w: string, first: bool)
    requires SnakeWord(w)
    ensures PascalToSnake([Upper(w[0])] + w[1..], first) == (if first then "" else "_") + w
  {
    var t := [Upper(w[0])] + w[1..];
    assert t[1..] == w[1..];
    PascalToSnakeNoUpper(w[1..], false);
    assert w == [w[0]] + w[1..];
  }

  lemma {:induction false} PascalToSnakeWords(words: seq<string>, first: bool)
    requires forall i :: 0 <= i < |words| ==> SnakeWord(words[i])
    ensures CapitalizeAll(words).Some?
    ensures |words| >= 1 ==> PascalToSnake(CapitalizeAll(words).value, first) == (if first then "" else "_") + Join(words, '_')
  {
    if |words| >= 1 {
      PascalToSnakeWords(words[1..], false);
      var head := [Upper(words[0][0])] + words[0][1..];
      PascalToSnakeWord(words[0], first);
      if |words| == 1 {
        assert CapitalizeAll(words).value == head + "";
        assert head + "" == head;
      } else {
        var tail := CapitalizeAll(words[1..]).value;
        assert CapitalizeAll(words).value == head + tail;
        PascalToSnakeAppend(head, tail, first);
      }
    }
  }

  /**
   * For a snake_case name the conversion succeeds and is undone by
   * `PascalToSnake`: the conversion loses nothing.
   */
  lemma SnakeToPascalRoundTrip(s: string)
    requires IsSnake(s)
    ensures SnakeToPascal(s).Some?
    ensures PascalToSnake(SnakeToPascal(s).value, true) == s
  {
    PascalToSnakeWords(Split(s, '_'), true);
    JoinSplit(s, '_');
  }

  /** The conversion fails exactly when a segment between underscores is empty. */
  lemma SnakeToPascalFails(s: string)
    ensures SnakeToPascal(s).None? <==> exists i :: 0 <= i < |Split(s, '_')| && Split(s, '_')[i] == ""
  {
    var words := Split(s, '_');
    if SnakeToPascal(s).None? {
      var i :| 0 <= i < |words| && |words[i]| == 0;
      assert words[i] == "";
      assert exists j :: 0 <= j < |Split(s, '_')| && Split(s, '_')[j] == "";
    } else {
      forall i | 0 <= i < |words|
        ensures words[i] != ""
      {
        assert |words[i]| > 0;
      }
      assert !exists j :: 0 <= j < |Split(s, '_')| && Split(s, '_')[j] == "";
    }
  }

  /** The result holds no underscore: every separator is dropped. */
  lemma {:induction false} CapitalizeAllNoSeparator(words: seq<string>)
    requires forall i :: 0 <= i < |words| ==> '_' !in words[i]
    ensures CapitalizeAll(words).Some? ==> '_' !in CapitalizeAll(words).value
  {
    if |words| > 0 && CapitalizeAll(words).Some? {
      CapitalizeAllNoSeparator(words[1..]);
      var w := words[0];
      assert Upper(w[0]) != '_' by {
        assert w[0] in w;
      }
      assert forall c :: c in w[1..] ==> c in w;
    }
  }

  lemma PascalHasNoUnderscore(s: string)
    ensures SnakeToPascal(s).Some? ==> '_' !in SnakeToPascal(s).value
  {
    CapitalizeAllNoSeparator(Split(s, '_'));
  }

  lemma SplitExample()
    ensures Split("round_prefer_floor", '_') == ["round", "prefer", "floor"]
  {
    var words := ["round", "prefer", "floor"];
    assert Join(words[2..], '_') == "floor";
    assert Join(words[1..], '_') == "prefer_floor";
    assert Join(words, '_') == "round_prefer_floor";
    SplitJoin(words, '_');
  }

  lemma CapitalizeExample()
    ensures CapitalizeAll(["round", "prefer", "floor"]) == Some("RoundPreferFloor")
  {
    var words := ["round", "prefer", "floor"];
    assert ['F'] + "floor"[1..] == "Floor";
    assert ['P'] + "prefer"[1..] == "Prefer";
    assert ['R'] + "round"[1..] == "Round";
    assert "Floor" + "" == "Floor";
    assert CapitalizeAll(words[2..]) == Some("Floor");
    assert words[1..][1..] == words[2..];
    assert CapitalizeAll(words[1..]) == Some("Prefer" + "Floor");
    assert "Prefer" + "Floor" == "PreferFloor";
    assert CapitalizeAll(words) == Some("Round" + "PreferFloor");
    assert "Round" + "PreferFloor" == "RoundPreferFloor";
  }

  /** The example from the enum attribute documentation. */
  lemma RoundPreferFloor()
    ensures SnakeToPascal("round_prefer_floor") == Some("RoundPreferFloor")
  {
    SplitExample();
    CapitalizeExample();
  }
}
