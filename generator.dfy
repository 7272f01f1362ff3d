/**
 * `Generator` of `rten-examples/src/generator.rs`: it drives an
 * auto-regressive language model one token at a time, feeding back the
 * model's key-value cache outputs as the next step's inputs, and the
 * adaptors that stop at an end-of-text token and decode tokens to text.
 *
 * Running the model, picking the most likely token from the logits and the
 * tokenizer are outside this model; they are passed in as pure functions
 * (`Runner`, `decode`).
 */
module TokenGenerator {
  import opened Wrappers
  import opened KvNames
  import Tensors

  type U32 = x: nat | x <= MaxU32

  datatype GenError =
    | InputNotFound(input: string)
    | OutputNotFound(output: string)
    | ShapeMismatch(input: string)
    | GenerateError
    /** An `i32` or `u32` addition that overflows: a panic in a build with overflow checks. */
    | Overflow

  /** A dimension of a model input's shape: fixed, or named and free. */
  datatype Dimension = Fixed(size: nat) | Symbolic(param: string)

  /** What the model records about a node. */
  datatype NodeInfo = NodeInfo(name: Option<string>, shape: Option<seq<Dimension>>)

  /** The parts of a loaded model the generator consults. */
  datatype Model = Model(nodeIds: map<string, nat>, inputIds: seq<nat>, info: map<nat, NodeInfo>)

  /** A tensor passed to or returned by the model. */
  datatype Value =
    | IntTensor(shape: seq<nat>, ints: seq<int>)
    | FloatTensor(shape: seq<nat>, floats: seq<Tensors.F32>)

  /** What `NdTensor<f32, 4>::try_from` accepts. */
  predicate Is4dFloat(v: Value)
  {
    v.FloatTensor? && |v.shape| == 4
  }

  /** One layer's key or value cache: the input it feeds and the output that updates it. */
  datatype KvCache = KvCache(inputId: nat, outputId: nat, cache: Value)

  /**
   * What one model input contributes to the cache list: nothing when it is
   * not a cache input, an entry when it is, and an error when its shape is
   * not (batch, heads, seq, size) with fixed heads and size, or the
   * matching output is missing. The shape is checked before the layer index
   * is read.
   */
  function EntryFor(model: Model, id: nat): Result<Option<KvCache>, GenError>
  {
    if id !in model.info then Err(InputNotFound("input ID " + Decimal(id)))
    else
      var info := model.info[id];
      if info.name.None? then Ok(None)
      else
        var name := info.name.value;
        if !StartsWith(name, InputPrefix) then Ok(None)
        else if !EndsWith(name, ".key") && !EndsWith(name, ".value") then Ok(None)
        else if !(info.shape.Some? && |info.shape.value| == 4 && info.shape.value[1].Fixed? && info.shape.value[3].Fixed?) then
          Err(ShapeMismatch(name))
        else
          var heads, size := info.shape.value[1].size, info.shape.value[3].size;
          match LayerIndex(name)
          case None => Ok(None)
          case Some(layer) =>
            var outputName := OutputName(layer, CacheType(name));
            if outputName !in model.nodeIds then Err(OutputNotFound(outputName))
            else Ok(Some(KvCache(id, model.nodeIds[outputName], FloatTensor([1, heads, 0, size], []))))
  }

  /** The cache entries of the inputs `ids`, in order, or the first error. */
  function KvEntries(model: Model, ids: seq<nat>): Result<seq<KvCache>, GenError>
  {
    if ids == [] then Ok([])
    else
      var earlier :- KvEntries(model, ids[..|ids| - 1]);
      var entry :- EntryFor(model, ids[|ids| - 1]);
      Ok(earlier + if entry.Some? then [entry.value] else [])
  }

  /**
   * Every cache entry comes from an input named `past_key_values.<N>.key`
   * or `.value` with a 4-D shape, is paired with the output
   * `present.<N>.key` or `.value`, and starts empty.
   */
  lemma EntryForNamed(model: Model, id: nat)
    requires EntryFor(model, id).Ok? && EntryFor(model, id).value.Some?
    ensures id in model.info && model.info[id].name.Some?
    ensures var name := model.info[id].name.value;
      StartsWith(name, InputPrefix) && (EndsWith(name, ".key") || EndsWith(name, ".value")) &&
      LayerIndex(name).Some? &&
      var e := EntryFor(model, id).value.value;
      e.inputId == id && e.outputId == model.nodeIds[OutputName(LayerIndex(name).value, CacheType(name))] &&
      e.cache.FloatTensor? && e.cache.floats == [] && |e.cache.shape| == 4 && e.cache.shape[0] == 1 && e.cache.shape[2] == 0
  {
  }

  /**
   * An input named by the convention, with a fixed number of heads and a
   * fixed size and a matching output, becomes an empty cache entry of
   * shape (1, heads, 0, size).
   */
  lemma EntryForConvention(model: Model, id: nat, layer: nat, cacheType: string, batch: Dimension, past: Dimension, heads: nat, size: nat)
    requires layer <= MaxU32 && (cacheType == "key" || cacheType == "value")
    requires id in model.info && model.info[id] == NodeInfo(Some(InputName(layer, cacheType)), Some([batch, Fixed(heads), past, Fixed(size)]))
    requires OutputName(layer, cacheType) in model.nodeIds
    ensures EntryFor(model, id) == Ok(Some(KvCache(id, model.nodeIds[OutputName(layer, cacheType)], FloatTensor([1, heads, 0, size], []))))
  {
    ConventionName(layer, cacheType);
    var shape := [batch, Fixed(heads), past, Fixed(size)];
    assert model.info[id].shape == Some(shape) && shape[1] == Fixed(heads) && shape[3] == Fixed(size);
  }

  /** A cache input's conventional name passes every name check of the scan. */
  lemma ConventionName(layer: nat, cacheType: string)
    requires layer <= MaxU32 && (cacheType == "key" || cacheType == "value")
    ensures StartsWith(InputName(layer, cacheType), InputPrefix)
    ensures EndsWith(InputName(layer, cacheType), ".key") || EndsWith(InputName(layer, cacheType), ".value")
    ensures LayerIndex(InputName(layer, cacheType)) == Some(layer)
    ensures CacheType(InputName(layer, cacheType)) == cacheType
  {
    LayerIndexOfInputName(layer, cacheType);
    CacheTypeOfInputName(layer, cacheType);
    if cacheType == "key" {
      assert "." + cacheType == ".key";
    } else {
      assert "." + cacheType == ".value";
    }
  }

  /** An input whose name lacks the prefix never becomes a cache entry, whatever its shape. */
  lemma OtherNamesSkipped(model: Model, id: nat)
    requires id in model.info && model.info[id].name.Some? && !StartsWith(model.info[id].name.value, InputPrefix)
    ensures EntryFor(model, id) == Ok(None)
  {
  }

  /**
   * Without digits after the prefix a well-shaped input is skipped, so
   * `past_key_values.x.key` is not a cache input.
   */
  lemma NoLayerSkipped(model: Model, id: nat, name: string)
    requires id in model.info && model.info[id].name == Some(name) && StartsWith(name, InputPrefix)
    requires |name| == |InputPrefix| || !IsDigit(name[|InputPrefix|])
    ensures EntryFor(model, id).Ok? ==> EntryFor(model, id) == Ok(None)
    ensures EntryFor(model, id).Err? ==> EntryFor(model, id).error == ShapeMismatch(name)
  {
    NoDigitNoLayer(name);
  }

  /** Every entry of a successful scan starts as an empty 4-D float tensor. */
  lemma {:induction false} KvEntriesShaped(model: Model, ids: seq<nat>)
    requires KvEntries(model, ids).Ok?
    ensures |KvEntries(model, ids).value| <= |ids|
    ensures forall i :: 0 <= i < |KvEntries(model, ids).value| ==> Is4dFloat(KvEntries(model, ids).value[i].cache)
  {
    if ids != [] {
      KvEntriesShaped(model, ids[..|ids| - 1]);
    }
  }

  /** Once the scan has failed, later inputs do not change the error. */
  lemma {:induction false} KvEntriesErrPersists(model: Model, ids: seq<nat>, n: nat)
    requires n <= |ids| && KvEntries(model, ids[..n]).Err?
    ensures KvEntries(model, ids) == KvEntries(model, ids[..n])
  {
    if n == |ids| {
      assert ids[..n] == ids;
    } else {
      var init := ids[..|ids| - 1];
      assert init[..n] == ids[..n];
      KvEntriesErrPersists(model, init, n);
    }
  }

  /** The loop of `Generator::from_model` over the model's inputs. */
  method FindKvCaches(model: Model) returns (r: Result<seq<KvCache>, GenError>)
    ensures r == KvEntries(model, model.inputIds)
  {
    var ids := model.inputIds;
    var caches: seq<KvCache> := [];
    for k := 0 to |ids|
      invariant KvEntries(model, ids[..k]) == Ok(caches)
    {
      assert ids[..k + 1][..k] == ids[..k] && ids[..k + 1][k] == ids[k];
      var result := EntryFor(model, ids[k]);
      if result.Err? {
        KvEntriesErrPersists(model, ids, k + 1);
        return Err(result.error);
      }
      var entry := result.value;
      if entry.Some? {
        caches := caches + [entry.value];
      } else {
        assert KvEntries(model, ids[..k + 1]) == Ok(caches + []);
        assert caches + [] == caches;
      }
    }
    assert ids[..|ids|] == ids;
    r := Ok(caches);
  }

  /**
   * `x as i32` for an unsigned `x` (`*id as i32`, `pos as i32`): the low 32
   * bits as two's complement, so token ids of 2^31 and above turn negative.
   */
  function AsI32(x: nat): (r: int)
    ensures Tensors.MinI32 <= r <= Tensors.MaxI32
    ensures x <= Tensors.MaxI32 ==> r == x
    ensures r % 0x1_0000_0000 == x % 0x1_0000_0000
  {
    var low := x % 0x1_0000_0000;
    if low > Tensors.MaxI32 then low - 0x1_0000_0000 else low
  }

  /** The `input_ids` tensor: shape (1, n), the ids as `i32`. */
  function InputIdsTensor(ids: seq<U32>): (r: Value)
    ensures r.IntTensor? && r.shape == [1, |ids|] && |r.ints| == |ids|
    ensures forall i :: 0 <= i < |ids| ==> r.ints[i] == AsI32(ids[i])
  {
    IntTensor([1, |ids|], seq(|ids|, i requires 0 <= i < |ids| => AsI32(ids[i])))
  }

  /** The `attention_mask` tensor: shape (1, n), every position attended to. */
  function AttentionMask(n: nat): (r: Value)
    ensures r.IntTensor? && r.shape == [1, n] && |r.ints| == n
    ensures forall i :: 0 <= i < n ==> r.ints[i] == 1
  {
    IntTensor([1, n], seq(n, _ => 1))
  }

  /** Position `pos` of a step, `seq_len as i32 + pos as i32`; `None` where the addition overflows. */
  function Position(seqLen: U32, pos: nat): Option<int>
  {
    var p := AsI32(seqLen) + AsI32(pos);
    if Tensors.MinI32 <= p <= Tensors.MaxI32 then Some(p) else None
  }

  /**
   * The `position_ids` tensor: shape (1, n), positions counted on from
   * `seqLen`; `None` when one of the additions overflows.
   */
  function PositionIds(seqLen: U32, n: nat): (r: Option<Value>)
    ensures r.Some? <==> forall pos :: 0 <= pos < n ==> Position(seqLen, pos).Some?
    ensures r.Some? ==> r.value.IntTensor? && r.value.shape == [1, n] && |r.value.ints| == n
    ensures r.Some? ==> forall pos :: 0 <= pos < n ==> r.value.ints[pos] == Position(seqLen, pos).value
    ensures seqLen + n <= Tensors.MaxI32 + 1 ==> r.Some? && forall pos :: 0 <= pos < n ==> r.value.ints[pos] == seqLen + pos
  {
    if forall pos :: 0 <= pos < n ==> Position(seqLen, pos).Some? then
      Some(IntTensor([1, n], seq(n, pos requires 0 <= pos < n => Position(seqLen, pos).value)))
    else None
  }

  /** Positions run out of the `i32` range two steps after `MaxI32`: `[MaxI32, MaxI32 + 1]` overflows. */
  lemma PositionsOverflow()
    ensures PositionIds(Tensors.MaxI32, 1).Some? && PositionIds(Tensors.MaxI32, 2).None?
  {
    assert Position(Tensors.MaxI32, 1).None?;
  }

  /**
   * The positions of one step followed by those of the next, which starts
   * `n` later, are the positions of both steps fed at once: feeding the new
   * token alone continues the numbering of the prompt.
   */
  lemma PositionsContinue(seqLen: U32, n: nat, m: nat)
    requires seqLen + n + m <= Tensors.MaxI32 + 1
    ensures PositionIds(seqLen, n).value.ints + PositionIds(seqLen + n, m).value.ints == PositionIds(seqLen, n + m).value.ints
  {
    var joined := PositionIds(seqLen, n).value.ints + PositionIds(seqLen + n, m).value.ints;
    forall pos | 0 <= pos < n + m
      ensures joined[pos] == seqLen + pos
    {
      if pos >= n {
        assert joined[pos] == PositionIds(seqLen + n, m).value.ints[pos - n];
      }
    }
  }

  /**
   * The inputs of one step, in order: token ids, the mask and positions when
   * the model has those inputs, the propagated constants, and the caches.
   */
  function StepInputs(
    idsInput: nat, maskInput: Option<nat>, positionInput: Option<nat>,
    ids: seq<U32>, positions: Value, constants: seq<(nat, Value)>, kv: seq<KvCache>): (r: seq<(nat, Value)>)
    ensures |r| == 1 + (if maskInput.Some? then 1 else 0) + (if positionInput.Some? then 1 else 0) + |constants| + |kv|
    ensures r[0] == (idsInput, InputIdsTensor(ids))
    ensures maskInput.Some? ==> r[1] == (maskInput.value, AttentionMask(|ids|))
    ensures positionInput.Some? ==> (positionInput.value, positions) in r
    ensures forall i :: 0 <= i < |constants| ==> r[|r| - |kv| - |constants| + i] == constants[i]
    ensures forall i :: 0 <= i < |kv| ==> r[|r| - |kv| + i] == (kv[i].inputId, kv[i].cache)
  {
    var caches := seq(|kv|, i requires 0 <= i < |kv| => (kv[i].inputId, kv[i].cache));
    [(idsInput, InputIdsTensor(ids))]
      + (if maskInput.Some? then [(maskInput.value, AttentionMask(|ids|))] else [])
      + (if positionInput.Some? then [(positionInput.value, positions)] else [])
      + constants + caches
  }

  /** The outputs one step asks for: the logits, then each cache's update. */
  function StepOutputs(logits: nat, kv: seq<KvCache>): (r: seq<nat>)
    ensures |r| == 1 + |kv| && r[0] == logits
    ensures forall i :: 0 <= i < |kv| ==> r[i + 1] == kv[i].outputId
  {
    [logits] + seq(|kv|, i requires 0 <= i < |kv| => kv[i].outputId)
  }

  /**
   * The model as the generator uses it: `partialRun` propagates constants,
   * `run` evaluates the requested outputs, and `nextToken` converts the
   * logits and takes the most likely token at the last position; `None`
   * stands for an error from any of them.
   */
  datatype Runner = Runner(
    partialRun: (seq<(nat, Value)>, seq<nat>) -> Option<seq<(nat, Value)>>,
    run: (seq<(nat, Value)>, seq<nat>) -> Option<seq<Value>>,
    nextToken: Value -> Option<U32>)

  /** `Model::run` returns one value per requested output. */
  ghost predicate RunsAllOutputs(runner: Runner)
  {
    forall inputs, outputs :: runner.run(inputs, outputs).Some? ==> |runner.run(inputs, outputs).value| == |outputs|
  }

  class Generator {
    const model: Model
    const inputIdsInput: nat
    const attentionMaskInput: Option<nat>
    const positionIdsInput: Option<nat>
    const logitsOutput: nat
    var constantInputs: seq<(nat, Value)>
    var constantPropInputs: Option<seq<(nat, Value)>>
    var inputIds: seq<U32>
    var seqLen: U32
    var kvCache: seq<KvCache>

    /** Every cache holds a 4-D float tensor. */
    ghost predicate Valid()
      reads this
    {
      forall i :: 0 <= i < |kvCache| ==> Is4dFloat(kvCache[i].cache)
    }

    constructor (model: Model, idsInput: nat, maskInput: Option<nat>, positionInput: Option<nat>, logits: nat, kv: seq<KvCache>)
      ensures this.model == model && inputIdsInput == idsInput && attentionMaskInput == maskInput
      ensures positionIdsInput == positionInput && logitsOutput == logits && kvCache == kv
      ensures constantInputs == [] && constantPropInputs == None && inputIds == [] && seqLen == 0
    {
      this.model := model;
      inputIdsInput := idsInput;
      attentionMaskInput := maskInput;
      positionIdsInput := positionInput;
      logitsOutput := logits;
      kvCache := kv;
      constantInputs := [];
      constantPropInputs := None;
      inputIds := [];
      seqLen := 0;
    }

    /** `with_prompt`: the tokens of the first step. */
    method WithPrompt(prompt: seq<U32>)
      modifies this
      ensures inputIds == prompt
      ensures constantInputs == old(constantInputs) && constantPropInputs == old(constantPropInputs)
      ensures seqLen == old(seqLen) && kvCache == old(kvCache)
    {
      inputIds := prompt;
    }

    /** `with_constant_input`: adds an input given at every step and invalidates the propagated constants. */
    method WithConstantInput(id: nat, value: Value)
      modifies this
      ensures constantInputs == old(constantInputs) + [(id, value)] && constantPropInputs == None
      ensures inputIds == old(inputIds) && seqLen == old(seqLen) && kvCache == old(kvCache)
    {
      constantPropInputs := None;
      constantInputs := constantInputs + [(id, value)];
    }

    /** The model's outputs for one step, given its positions and the propagated constants. */
    function StepRun(runner: Runner, ids: seq<U32>, positions: Value, constants: seq<(nat, Value)>, kv: seq<KvCache>)
      : Option<seq<Value>>
    {
      runner.run(
        StepInputs(inputIdsInput, attentionMaskInput, positionIdsInput, ids, positions, constants, kv),
        StepOutputs(logitsOutput, kv))
    }

    /**
     * `generate_next_token`: one run of the model. The positions are built
     * first; constants are propagated only when none are cached. On success
     * the caches hold the run's updates, the sequence length grows by the
     * tokens fed in, and the next step is fed just the new token. Until the
     * caches are updated a failure changes nothing else; a cache update that
     * fails leaves the caches before it already updated, and an overflowing
     * length leaves them all updated.
     */
    method GenerateNextToken(runner: Runner) returns (r: Result<U32, GenError>)
      requires Valid() && RunsAllOutputs(runner)
      modifies this
      ensures Valid()
      ensures constantInputs == old(constantInputs)
      ensures |kvCache| == |old(kvCache)|
      ensures forall i :: 0 <= i < |kvCache| ==> kvCache[i].inputId == old(kvCache)[i].inputId && kvCache[i].outputId == old(kvCache)[i].outputId
      ensures r.Err? ==> inputIds == old(inputIds) && seqLen == old(seqLen)
      ensures PositionIds(old(seqLen), |old(inputIds)|).None? ==>
        r == Err(Overflow) && kvCache == old(kvCache) && constantPropInputs == old(constantPropInputs)
      ensures PositionIds(old(seqLen), |old(inputIds)|).Some? ==>
        constantPropInputs == if old(constantPropInputs).Some? then old(constantPropInputs) else runner.partialRun(constantInputs, [logitsOutput])
      ensures PositionIds(old(seqLen), |old(inputIds)|).Some? && constantPropInputs.None? ==>
        r == Err(GenerateError) && kvCache == old(kvCache)
      ensures PositionIds(old(seqLen), |old(inputIds)|).Some? && constantPropInputs.Some? ==>
        var outs := StepRun(runner, old(inputIds), PositionIds(old(seqLen), |old(inputIds)|).value, constantPropInputs.value, old(kvCache));
        var grown := old(seqLen) + |old(inputIds)| % 0x1_0000_0000;
        (outs.None? || runner.nextToken(outs.value[0]).None? ==> r == Err(GenerateError) && kvCache == old(kvCache)) &&
        (outs.Some? && runner.nextToken(outs.value[0]).Some? ==>
          ((forall i :: 1 <= i < |outs.value| ==> Is4dFloat(outs.value[i])) && grown <= MaxU32 <==> r.Ok?)) &&
        (r.Ok? ==>
          outs.Some? && runner.nextToken(outs.value[0]) == Some(r.value) &&
          (forall i :: 0 <= i < |kvCache| ==> kvCache[i].cache == outs.value[i + 1]) &&
          seqLen == grown && inputIds == [r.value])
    {
      var positions := PositionIds(seqLen, |inputIds|);
      if positions.None? {
        return Err(Overflow);
      }
      if constantPropInputs.None? {
        var propagated := runner.partialRun(constantInputs, [logitsOutput]);
        if propagated.None? {
          return Err(GenerateError);
        }
        constantPropInputs := propagated;
      }
      var outputs := StepRun(runner, inputIds, positions.value, constantPropInputs.value, kvCache);
      if outputs.None? {
        return Err(GenerateError);
      }
      var outs := outputs.value;
      var next := runner.nextToken(outs[0]);
      if next.None? {
        return Err(GenerateError);
      }
      var ok := UpdateCaches(outs[1..]);
      if !ok {
        return Err(GenerateError);
      }
      var grown := seqLen + |inputIds| % 0x1_0000_0000;
      if grown > MaxU32 {
        return Err(Overflow);
      }
      seqLen := grown;
      inputIds := [next.value];
      r := Ok(next.value);
    }

    /**
     * The cache update of `generate_next_token`: cache `i` takes update `i`,
     * and the first update that is not a 4-D float tensor stops the loop
     * with an error, leaving the caches before it updated.
     */
    method UpdateCaches(updates: seq<Value>) returns (ok: bool)
      requires Valid() && |updates| == |kvCache|
      modifies this
      ensures Valid() && |kvCache| == |old(kvCache)|
      ensures forall i :: 0 <= i < |kvCache| ==> kvCache[i].inputId == old(kvCache)[i].inputId && kvCache[i].outputId == old(kvCache)[i].outputId
      ensures ok <==> forall i :: 0 <= i < |updates| ==> Is4dFloat(updates[i])
      ensures ok ==> forall i :: 0 <= i < |kvCache| ==> kvCache[i].cache == updates[i]
      ensures inputIds == old(inputIds) && seqLen == old(seqLen)
      ensures constantInputs == old(constantInputs) && constantPropInputs == old(constantPropInputs)
    {
      for i := 0 to |kvCache|
        invariant |kvCache| == |old(kvCache)|
        invariant forall j :: 0 <= j < |kvCache| ==> kvCache[j].inputId == old(kvCache)[j].inputId && kvCache[j].outputId == old(kvCache)[j].outputId
        invariant forall j :: 0 <= j < i ==> kvCache[j].cache == updates[j] && Is4dFloat(updates[j])
        invariant Valid()
        invariant inputIds == old(inputIds) && seqLen == old(seqLen)
        invariant constantInputs == old(constantInputs) && constantPropInputs == old(constantPropInputs)
      {
        if !Is4dFloat(updates[i]) {
          return false;
        }
        kvCache := kvCache[i := kvCache[i].(cache := updates[i])];
      }
      ok := true;
    }

    /** `Iterator::next` of the generator: always an item, the result of one step. */
    method Next(runner: Runner) returns (item: Option<Result<U32, GenError>>)
      requires Valid() && RunsAllOutputs(runner)
      modifies this
      ensures Valid() && item.Some?
      ensures item.value.Ok? ==> seqLen == old(seqLen) + |old(inputIds)| % 0x1_0000_0000 && inputIds == [item.value.value]
      ensures item.value.Err? ==> inputIds == old(inputIds) && seqLen == old(seqLen)
    {
      var r := GenerateNextToken(runner);
      item := Some(r);
    }
  }

  /**
   * `Generator::from_model`: `input_ids` and `logits` must exist,
   * `attention_mask` and `position_ids` are optional, and the cache entries
   * are found by name. The generator starts with no tokens and length 0.
   */
  method FromModel(model: Model) returns (r: Result<Generator, GenError>)
    ensures "input_ids" !in model.nodeIds ==> r == Err(InputNotFound("input_ids"))
    ensures "input_ids" in model.nodeIds && "logits" !in model.nodeIds ==> r == Err(OutputNotFound("logits"))
    ensures "input_ids" in model.nodeIds && "logits" in model.nodeIds ==>
      (r.Ok? <==> KvEntries(model, model.inputIds).Ok?)
    ensures r.Ok? ==>
      fresh(r.value) && r.value.Valid() &&
      r.value.inputIdsInput == model.nodeIds["input_ids"] && r.value.logitsOutput == model.nodeIds["logits"] &&
      r.value.attentionMaskInput == (if "attention_mask" in model.nodeIds then Some(model.nodeIds["attention_mask"]) else None) &&
      r.value.positionIdsInput == (if "position_ids" in model.nodeIds then Some(model.nodeIds["position_ids"]) else None) &&
      r.value.kvCache == KvEntries(model, model.inputIds).value &&
      r.value.inputIds == [] && r.value.seqLen == 0 &&
      r.value.constantInputs == [] && r.value.constantPropInputs == None
  {
    if "input_ids" !in model.nodeIds {
      return Err(InputNotFound("input_ids"));
    }
    var idsInput := model.nodeIds["input_ids"];
    var maskInput := if "attention_mask" in model.nodeIds then Some(model.nodeIds["attention_mask"]) else None;
    var positionInput := if "position_ids" in model.nodeIds then Some(model.nodeIds["position_ids"]) else None;
    if "logits" !in model.nodeIds {
      return Err(OutputNotFound("logits"));
    }
    var logits := model.nodeIds["logits"];
    var kv :- FindKvCaches(model);
    KvEntriesShaped(model, model.inputIds);
    var g := new Generator(model, idsInput, maskInput, positionInput, logits, kv);
    r := Ok(g);
  }

  /**
   * `stop_on_token`: the tokens up to, not including, the first end-of-text
   * token or error.
   */
  function StopOnToken(items: seq<Result<U32, GenError>>, eos: U32): (r: seq<Result<U32, GenError>>)
    ensures |r| <= |items| && r == items[..|r|]
    ensures forall i :: 0 <= i < |r| ==> r[i].Ok? && r[i].value != eos
    ensures |r| < |items| ==> items[|r|].Err? || items[|r|].value == eos
  {
    if items == [] || items[0].Err? || items[0].value == eos then []
    else [items[0]] + StopOnToken(items[1..], eos)
  }

  /** The first `n` items are all tokens. */
  predicate OkUpTo(items: seq<Result<U32, GenError>>, n: nat)
    requires n <= |items|
  {
    forall i :: 0 <= i < n ==> items[i].Ok?
  }

  /** The first `n` tokens. */
  function TokensUpTo(items: seq<Result<U32, GenError>>, n: nat): (r: seq<nat>)
    requires n <= |items| && OkUpTo(items, n)
    ensures |r| == n && forall i :: 0 <= i < n ==> r[i] == items[i].value
  {
    seq(n, i requires 0 <= i < n => items[i].value)
  }

  function Concat(strings: seq<string>): string
  {
    if strings == [] then "" else strings[0] + Concat(strings[1..])
  }

  /** No run of the first `k` tokens, for `k` from 1 to `n`, decodes. */
  predicate NoneDecodes(items: seq<Result<U32, GenError>>, n: nat, decode: seq<nat> -> Option<seq<string>>)
    requires n <= |items| && OkUpTo(items, n)
  {
    forall k :: 1 <= k <= n ==> decode(TokensUpTo(items, k)).None?
  }

  /**
   * `TextGenerator::next`, over the items its generator still has to give:
   * tokens are buffered until the buffer decodes, and the decoded strings
   * are joined; an error is passed on at once, and running out of items
   * gives `None`. `consumed` is how many items were taken.
   */
  method TextNext(items: seq<Result<U32, GenError>>, decode: seq<nat> -> Option<seq<string>>)
    returns (r: Option<Result<string, GenError>>, consumed: nat)
    ensures consumed <= |items|
    ensures r.None? ==> consumed == |items| && OkUpTo(items, |items|) && NoneDecodes(items, |items|, decode)
    ensures r.Some? && r.value.Err? ==>
      1 <= consumed && OkUpTo(items, consumed - 1) && NoneDecodes(items, consumed - 1, decode) &&
      items[consumed - 1] == Err(r.value.error)
    ensures r.Some? && r.value.Ok? ==>
      1 <= consumed && OkUpTo(items, consumed) && NoneDecodes(items, consumed - 1, decode) &&
      decode(TokensUpTo(items, consumed)).Some? && r.value.value == Concat(decode(TokensUpTo(items, consumed)).value)
  {
    var buffer: seq<nat> := [];
    for k := 0 to |items|
      invariant OkUpTo(items, k) && buffer == TokensUpTo(items, k)
      invariant NoneDecodes(items, k, decode)
    {
      var item := items[k];
      if item.Err? {
        return Some(Err(item.error)), k + 1;
      }
      buffer := buffer + [item.value];
      assert OkUpTo(items, k + 1) && buffer == TokensUpTo(items, k + 1);
      var strings := decode(buffer);
      if strings.Some? {
        return Some(Ok(Concat(strings.value))), k + 1;
      }
    }
    r, consumed := None, |items|;
  }
}
