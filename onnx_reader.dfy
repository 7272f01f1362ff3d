/**
 * `ONNXOperatorReader` of `tools/convert-onnx.py` and the attribute readers
 * built on it: looking up an operator's attributes by name and type,
 * remembering which ones were read, turning an attribute into a generated
 * constant input, and the padding, stride and dilation readers.
 */
module OnnxReader {
  import opened Wrappers
  import opened OnnxNames
  import opened OnnxNodes
  import Tensors

  /** `AttributeProto.type`. */
  datatype AttrType = FloatType | IntType | IntsType | StringType | TensorType | FloatsType | StringsType

  /** An attribute's value, which also fixes its type. */
  datatype AttrValue =
    | FloatAttr(f: real)
    | IntAttr(i: int)
    | IntsAttr(ints: seq<int>)
    | StringAttr(s: string)
    | TensorAttr(t: TensorProto)
    | FloatsAttr(floats: seq<real>)
    | StringsAttr(strings: seq<string>)
  {
    function Type(): AttrType
    {
      match this
      case FloatAttr(_) => FloatType
      case IntAttr(_) => IntType
      case IntsAttr(_) => IntsType
      case StringAttr(_) => StringType
      case TensorAttr(_) => TensorType
      case FloatsAttr(_) => FloatsType
      case StringsAttr(_) => StringsType
    }
  }

  datatype Attribute = Attribute(name: string, value: AttrValue)

  /** An ONNX `NodeProto`: an operator with named inputs, outputs and attributes. */
  datatype OnnxOperator = OnnxOperator(name: string, opType: string, inputs: seq<string>, outputs: seq<string>, attributes: seq<Attribute>)

  /** The types `value_fields` knows where to read the value of. */
  predicate HasValueField(t: AttrType)
  {
    t == FloatType || t == IntType || t == IntsType || t == StringType || t == TensorType
  }

  /** The position of the first attribute called `name`. */
  function FindAttr(attrs: seq<Attribute>, name: string): (r: Option<nat>)
    ensures r.Some? ==> (r.value < |attrs| && attrs[r.value].name == name &&
      forall j :: 0 <= j < r.value ==> attrs[j].name != name)
    ensures r.None? <==> forall j :: 0 <= j < |attrs| ==> attrs[j].name != name
  {
    if attrs == [] then None
    else if attrs[0].name == name then Some(0)
    else
      match FindAttr(attrs[1..], name)
      case None => None
      case Some(k) => Some(k + 1)
  }

  /** The value of the first attribute called `name`, if there is one. */
  function AttrOf(attrs: seq<Attribute>, name: string): (r: Option<AttrValue>)
    ensures r.None? <==> forall j :: 0 <= j < |attrs| ==> attrs[j].name != name
    ensures r.Some? ==> Attribute(name, r.value) in attrs
  {
    match FindAttr(attrs, name)
    case None => None
    case Some(k) => Some(attrs[k].value)
  }

  /**
   * What `get_attr` answers: the default when there is no such attribute, an
   * error when the first one has another type or a type without a value
   * field, and its value otherwise.
   */
  function Lookup(attrs: seq<Attribute>, name: string, ty: AttrType, default: Option<AttrValue>): (r: Result<Option<AttrValue>, Error>)
    ensures AttrOf(attrs, name).None? ==> r == Ok(default)
    ensures AttrOf(attrs, name).Some? && AttrOf(attrs, name).value.Type() != ty ==> r == Err(AttrTypeMismatch(name))
    ensures AttrOf(attrs, name).Some? && AttrOf(attrs, name).value.Type() == ty && !HasValueField(ty) ==> r == Err(NoValueField(name))
    ensures AttrOf(attrs, name).Some? && AttrOf(attrs, name).value.Type() == ty && HasValueField(ty) ==> r == Ok(AttrOf(attrs, name))
    ensures r.Ok? && r.value.Some? ==> r.value == default || (r.value.value.Type() == ty && Attribute(name, r.value.value) in attrs)
    ensures r.Ok? && default.Some? ==> r.value.Some?
  {
    match AttrOf(attrs, name)
    case None => Ok(default)
    case Some(v) =>
      if v.Type() != ty then Err(AttrTypeMismatch(name))
      else if !HasValueField(ty) then Err(NoValueField(name))
      else Ok(Some(v))
  }

  /** The attributes whose names are not in `handled`, in order. */
  function Unhandled(attrs: seq<Attribute>, handled: set<string>): (r: seq<Attribute>)
    ensures |r| <= |attrs|
    ensures forall a :: a in r <==> a in attrs && a.name !in handled
  {
    if attrs == [] then []
    else (if attrs[0].name in handled then [] else [attrs[0]]) + Unhandled(attrs[1..], handled)
  }

  /** `value` wrapped to `int32`, as `astype(np.int32)` does to an `int64`. */
  function Wrap32(x: int): (r: int)
    ensures Tensors.MinI32 <= r <= Tensors.MaxI32
    ensures Tensors.MinI32 <= x <= Tensors.MaxI32 ==> r == x
    ensures (r - x) % 0x1_0000_0000 == 0
  {
    (x - Tensors.MinI32) % 0x1_0000_0000 + Tensors.MinI32
  }

  /**
   * The constant `generate_input_from_attr` makes from an attribute value:
   * an `int` is an `int32` scalar, a `float` a `float32` scalar and `ints` an
   * `int32` constant of shape `[n]` over a two-dimensional `(1, n)` array
   * (`np.array([attr_val])`); any other type is refused.
   */
  function AttrConstant(nodeName: string, attrName: string, v: AttrValue): (r: Result<ConstantNode, Error>)
    ensures r.Ok? <==> v.IntAttr? || v.FloatAttr? || v.IntsAttr?
    ensures r.Ok? ==> ValidConstant(r.value) && r.value.name == nodeName
    ensures v.IntAttr? ==> r.Ok? && r.value.shape == [] && r.value.arr == NdArray(Int32, 0, [IntElem(Wrap32(v.i))])
    ensures v.FloatAttr? ==> r.Ok? && r.value.shape == [] && r.value.arr == NdArray(Float32, 0, [FloatElem(v.f)])
    ensures v.IntsAttr? ==> (r.Ok? && r.value.shape == [|v.ints|] && r.value.arr.dtype == Int32 && r.value.arr.ndim == 2 &&
      |r.value.arr.data| == |v.ints| && forall i :: 0 <= i < |v.ints| ==> r.value.arr.data[i] == IntElem(Wrap32(v.ints[i])))
    ensures r.Err? ==> r.error == UnsupportedAttrType(attrName)
  {
    match v
    case IntAttr(x) => NewConstantNode(nodeName, [], NdArray(Int32, 0, [IntElem(Wrap32(x))]))
    case FloatAttr(f) => NewConstantNode(nodeName, [], NdArray(Float32, 0, [FloatElem(f)]))
    case IntsAttr(xs) =>
      assert Tensors.Product([|xs|]) == |xs| * Tensors.Product([]);
      NewConstantNode(nodeName, [|xs|], NdArray(Int32, 2, seq(|xs|, i requires 0 <= i < |xs| => IntElem(Wrap32(xs[i])))))
    case _ => Err(UnsupportedAttrType(attrName))
  }

  /**
   * A scalar attribute becomes a zero-dimensional array, so `get_scalar`
   * refuses the constant made from it while the intended lookup gives the value back.
   */
  lemma AttrScalarFails(nodeName: string, attrName: string, v: AttrValue)
    requires v.IntAttr? || v.FloatAttr?
    ensures AttrConstant(nodeName, attrName, v).Ok?
    ensures OnnxNodes.GetScalar(AttrConstant(nodeName, attrName, v).value) == Err(OnnxNodes.ScalarIndex(nodeName))
    ensures OnnxNodes.ScalarOf(AttrConstant(nodeName, attrName, v).value) ==
      Some(if v.IntAttr? then OnnxNodes.IntElem(Wrap32(v.i)) else OnnxNodes.FloatElem(v.f))
  {
  }

  /** `check_ints_length`. */
  function CheckIntsLength(name: string, ints: seq<int>, allowed: nat): (r: Result<(), Error>)
    ensures r.Ok? <==> |ints| == allowed
    ensures r.Err? ==> r.error == WrongLength(name)
  {
    if |ints| != allowed then Err(WrongLength(name)) else Ok(())
  }

  /** The enum variant an attribute text names: its PascalCase form, or that form with `_` appended. */
  function EnumVariant(text: string, variants: set<string>): (r: Option<string>)
    ensures r.Some? ==> (r.value in variants && SnakeToPascal(text).Some? &&
      (r.value == SnakeToPascal(text).value || r.value == SnakeToPascal(text).value + "_"))
    ensures r.None? <==> (SnakeToPascal(text).None? ||
      (SnakeToPascal(text).value !in variants && SnakeToPascal(text).value + "_" !in variants))
  {
    match SnakeToPascal(text)
    case None => None
    case Some(p) =>
      if p in variants then Some(p) else if p + "_" in variants then Some(p + "_") else None
  }

  /** Whether padding is computed from the input size or given explicitly. */
  datatype PadMode = Same | FixedPads

  /**
   * `ONNXOperatorReader`: the operator, its input ids (which generated
   * constant inputs extend), the graph new constants are added to, and the
   * names of the attributes read so far.
   */
  class OperatorReader {
    const op: OnnxOperator
    const graph: GraphBuilder
    var inputIndexes: seq<Option<nat>>
    var handled: set<string>

    constructor (op: OnnxOperator, inputIndexes: seq<Option<nat>>, graph: GraphBuilder)
      ensures this.op == op && this.graph == graph
      ensures this.inputIndexes == inputIndexes && handled == {}
    {
      this.op := op;
      this.graph := graph;
      this.inputIndexes := inputIndexes;
      handled := {};
    }

    /** `get_attr`: marks `name` handled and looks it up. */
    method GetAttr(name: string, ty: AttrType, default: Option<AttrValue>) returns (r: Result<Option<AttrValue>, Error>)
      modifies this
      ensures handled == old(handled) + {name} && inputIndexes == old(inputIndexes)
      ensures r == Lookup(op.attributes, name, ty, default)
    {
      handled := handled + {name};
      var attrs := op.attributes;
      for k := 0 to |attrs|
        invariant forall j :: 0 <= j < k ==> attrs[j].name != name
      {
        var attr := attrs[k];
        if attr.name == name {
          assert FindAttr(attrs, name) == Some(k);
          if attr.value.Type() != ty {
            return Err(AttrTypeMismatch(name));
          }
          if !HasValueField(ty) {
            return Err(NoValueField(name));
          }
          return Ok(Some(attr.value));
        }
      }
      r := Ok(default);
    }

    /** `ignore_attr`: marks `name` handled without reading it. */
    method IgnoreAttr(name: string)
      modifies this
      ensures handled == old(handled) + {name} && inputIndexes == old(inputIndexes)
    {
      handled := handled + {name};
    }

    /** `require_attr`: like `get_attr`, but an absent attribute is an error. */
    method RequireAttr(name: string, ty: AttrType) returns (r: Result<AttrValue, Error>)
      modifies this
      ensures handled == old(handled) + {name} && inputIndexes == old(inputIndexes)
      ensures AttrOf(op.attributes, name).None? ==> r == Err(MissingAttr(name))
      ensures r.Ok? <==> AttrOf(op.attributes, name).Some? && AttrOf(op.attributes, name).value.Type() == ty && HasValueField(ty)
      ensures r.Ok? ==> r.value == AttrOf(op.attributes, name).value
    {
      var v :- GetAttr(name, ty, None);
      if v.None? {
        return Err(MissingAttr(name));
      }
      r := Ok(v.value);
    }

    /**
     * `check_attr`: an attribute that is present must hold one of the
     * accepted values.
     */
    method CheckAttr(name: string, ty: AttrType, defaults: seq<AttrValue>) returns (r: Result<(), Error>)
      modifies this
      ensures handled == old(handled) + {name} && inputIndexes == old(inputIndexes)
      ensures AttrOf(op.attributes, name).None? ==> r.Ok?
      ensures AttrOf(op.attributes, name).Some? ==>
        (r.Ok? <==> AttrOf(op.attributes, name).value.Type() == ty && HasValueField(ty) && AttrOf(op.attributes, name).value in defaults)
      ensures AttrOf(op.attributes, name).Some? && AttrOf(op.attributes, name).value.Type() == ty && HasValueField(ty) ==>
        (r.Err? ==> r.error == UnsupportedValue(name))
    {
      var v :- GetAttr(name, ty, None);
      if v.None? {
        return Ok(());
      }
      if v.value !in defaults {
        return Err(UnsupportedValue(name));
      }
      r := Ok(());
    }

    /** `unhandled_attrs`: the attributes never read or ignored, in order. */
    function UnhandledAttrs(): (r: seq<Attribute>)
      reads this
      ensures forall a :: a in r <==> a in op.attributes && a.name !in handled
    {
      Unhandled(op.attributes, handled)
    }

    /**
     * `get_enum_attr`: a string attribute (or the default) converted to
     * PascalCase and matched against the enum's variant names.
     */
    method GetEnumAttr(name: string, variants: set<string>, default: string) returns (r: Result<string, Error>)
      modifies this
      ensures handled == old(handled) + {name} && inputIndexes == old(inputIndexes)
      ensures r.Ok? ==> r.value in variants
      ensures AttrOf(op.attributes, name).None? ==>
        (r.Ok? <==> EnumVariant(default, variants).Some?) && (r.Ok? ==> r.value == EnumVariant(default, variants).value)
      ensures AttrOf(op.attributes, name).Some? && AttrOf(op.attributes, name).value.StringAttr? ==>
        var text := AttrOf(op.attributes, name).value.s;
        (r.Ok? <==> EnumVariant(text, variants).Some?) && (r.Ok? ==> r.value == EnumVariant(text, variants).value)
    {
      var v :- GetAttr(name, StringType, Some(StringAttr(default)));
      var text := v.value.s;
      var pascal := SnakeToPascal(text);
      if pascal.None? {
        return Err(MalformedEnumName(name));
      }
      if pascal.value in variants {
        return Ok(pascal.value);
      }
      if pascal.value + "_" in variants {
        return Ok(pascal.value + "_");
      }
      r := Err(UnsupportedValue(name));
    }

    /**
     * The end of `generate_input_from_attr`: the inputs are padded with
     * `None` up to `inputIndex`, which then holds `id`.
     */
    method PlaceInput(inputIndex: nat, id: nat)
      requires |inputIndexes| <= inputIndex
      modifies this
      ensures inputIndexes == old(inputIndexes) + seq(inputIndex - |old(inputIndexes)|, _ => None) + [Some(id)]
      ensures handled == old(handled)
    {
      while |inputIndexes| < inputIndex + 1
        invariant |old(inputIndexes)| <= |inputIndexes| <= inputIndex + 1
        invariant inputIndexes == old(inputIndexes) + seq(|inputIndexes| - |old(inputIndexes)|, _ => None)
        invariant handled == old(handled)
        decreases inputIndex + 1 - |inputIndexes|
      {
        inputIndexes := inputIndexes + [None];
      }
      ghost var padded := inputIndexes;
      inputIndexes := inputIndexes[inputIndex := Some(id)];
      assert inputIndexes == padded[..inputIndex] + [Some(id)];
      assert padded[..inputIndex] == old(inputIndexes) + seq(inputIndex - |old(inputIndexes)|, _ => None);
    }

    /**
     * `generate_input_from_attr`: when the operator has the attribute, a
     * constant holding its value is added to the graph and becomes input
     * `inputIndex`, the inputs in between being filled with `None`. It is
     * an error for that input to exist already.
     */
    method GenerateInputFromAttr(inputIndex: nat, attrName: string, attrType: AttrType) returns (r: Result<(), Error>)
      requires graph.Valid()
      modifies this, graph
      ensures graph.Valid()
      ensures handled == old(handled) + {attrName}
      ensures AttrOf(op.attributes, attrName).None? ==> r.Ok? && inputIndexes == old(inputIndexes) && graph.nodes == old(graph.nodes)
      ensures (AttrOf(op.attributes, attrName).Some? && AttrOf(op.attributes, attrName).value.Type() == attrType && HasValueField(attrType) &&
        inputIndex < |old(inputIndexes)|) ==>
        r == Err(InputConflict(attrName))
      ensures r.Err? ==> inputIndexes == old(inputIndexes) && graph.nodes == old(graph.nodes)
      ensures r.Ok? && AttrOf(op.attributes, attrName).Some? ==>
        var node := AttrConstant(op.name + ":wasnn-" + attrName, attrName, AttrOf(op.attributes, attrName).value);
        node.Ok? && inputIndex >= |old(inputIndexes)| &&
        graph.nodes == old(graph.nodes) + [Constant(node.value)] &&
        inputIndexes == old(inputIndexes) + seq(inputIndex - |old(inputIndexes)|, _ => None) + [Some(|old(graph.nodes)|)]
      ensures (AttrOf(op.attributes, attrName).Some? && AttrOf(op.attributes, attrName).value.Type() == attrType &&
        attrType in {IntType, FloatType, IntsType} && inputIndex >= |old(inputIndexes)| &&
        op.name + ":wasnn-" + attrName !in old(graph.tensorMap)) ==> r.Ok?
    {
      var v :- GetAttr(attrName, attrType, None);
      if v.None? {
        return Ok(());
      }
      if inputIndex < |inputIndexes| {
        return Err(InputConflict(attrName));
      }
      var node :- AttrConstant(op.name + ":wasnn-" + attrName, attrName, v.value);
      var id :- graph.AddNode(Constant(node));
      PlaceInput(inputIndex, id);
      r := Ok(());
    }

    /**
     * `read_pads`: `SAME_UPPER` and `SAME_LOWER` give computed padding,
     * `NOTSET` (given or by default) explicit `pads` of 2 or 4 values, by
     * default all zero; any other `auto_pad` is refused.
     */
    method ReadPads() returns (r: Result<(PadMode, seq<int>), Error>)
      modifies this
      ensures inputIndexes == old(inputIndexes)
      ensures old(handled) + {"auto_pad"} <= handled <= old(handled) + {"auto_pad", "pads"}
      ensures r.Ok? && r.value.0 == Same ==> r.value.1 == []
      ensures r.Ok? && r.value.0 == FixedPads ==> |r.value.1| == 2 || |r.value.1| == 4
      ensures AttrOf(op.attributes, "auto_pad") == Some(StringAttr("SAME_UPPER")) ==> r == Ok((Same, []))
      ensures AttrOf(op.attributes, "auto_pad") == Some(StringAttr("SAME_LOWER")) ==> r == Ok((Same, []))
      ensures (AttrOf(op.attributes, "auto_pad").Some? && AttrOf(op.attributes, "auto_pad").value.StringAttr? &&
        AttrOf(op.attributes, "auto_pad").value.s !in {"SAME_UPPER", "SAME_LOWER", "NOTSET"}) ==>
        r == Err(UnsupportedAutoPad(AttrOf(op.attributes, "auto_pad").value.s))
      ensures AttrOf(op.attributes, "auto_pad") in {None, Some(StringAttr("NOTSET"))} && AttrOf(op.attributes, "pads").None? ==>
        r == Ok((FixedPads, [0, 0, 0, 0]))
      ensures (AttrOf(op.attributes, "auto_pad") in {None, Some(StringAttr("NOTSET"))} &&
        AttrOf(op.attributes, "pads").Some? && AttrOf(op.attributes, "pads").value.IntsAttr?) ==>
        var pads := AttrOf(op.attributes, "pads").value.ints;
        (r.Ok? <==> |pads| == 2 || |pads| == 4) && (r.Ok? ==> r.value == (FixedPads, pads))
    {
      var mode :- GetAttr("auto_pad", StringType, Some(StringAttr("NOTSET")));
      var autoPad := mode.value.s;
      if autoPad == "SAME_UPPER" || autoPad == "SAME_LOWER" {
        return Ok((Same, []));
      }
      if autoPad != "NOTSET" {
        return Err(UnsupportedAutoPad(autoPad));
      }
      var given :- GetAttr("pads", IntsType, Some(IntsAttr([0, 0, 0, 0])));
      var pads := given.value.ints;
      if |pads| != 2 && |pads| != 4 {
        return Err(WrongLength("pads"));
      }
      r := Ok((FixedPads, pads));
    }

    /** A per-axis `ints` attribute with 1 or 2 values, `[1, 1]` when absent. */
    method ReadPerAxis(name: string) returns (r: Result<seq<int>, Error>)
      modifies this
      ensures handled == old(handled) + {name} && inputIndexes == old(inputIndexes)
      ensures r.Ok? ==> 1 <= |r.value| <= 2
      ensures AttrOf(op.attributes, name).None? ==> r == Ok([1, 1])
      ensures AttrOf(op.attributes, name).Some? && AttrOf(op.attributes, name).value.IntsAttr? ==>
        var given := AttrOf(op.attributes, name).value.ints;
        (r.Ok? <==> 1 <= |given| <= 2) && (r.Ok? ==> r.value == given)
      ensures AttrOf(op.attributes, name).Some? && !AttrOf(op.attributes, name).value.IntsAttr? ==> r == Err(AttrTypeMismatch(name))
    {
      var given :- GetAttr(name, IntsType, Some(IntsAttr([1, 1])));
      var values := given.value.ints;
      if |values| != 1 && |values| != 2 {
        return Err(WrongLength(name));
      }
      r := Ok(values);
    }

    /** `read_strides`. */
    method ReadStrides() returns (r: Result<seq<int>, Error>)
      modifies this
      ensures handled == old(handled) + {"strides"} && inputIndexes == old(inputIndexes)
      ensures r.Ok? ==> 1 <= |r.value| <= 2
      ensures AttrOf(op.attributes, "strides").None? ==> r == Ok([1, 1])
      ensures AttrOf(op.attributes, "strides").Some? && AttrOf(op.attributes, "strides").value.IntsAttr? ==>
        var given := AttrOf(op.attributes, "strides").value.ints;
        (r.Ok? <==> 1 <= |given| <= 2) && (r.Ok? ==> r.value == given)
    {
      r := ReadPerAxis("strides");
    }

    /** `read_dilations`. */
    method ReadDilations() returns (r: Result<seq<int>, Error>)
      modifies this
      ensures handled == old(handled) + {"dilations"} && inputIndexes == old(inputIndexes)
      ensures r.Ok? ==> 1 <= |r.value| <= 2
      ensures AttrOf(op.attributes, "dilations").None? ==> r == Ok([1, 1])
      ensures AttrOf(op.attributes, "dilations").Some? && AttrOf(op.attributes, "dilations").value.IntsAttr? ==>
        var given := AttrOf(op.attributes, "dilations").value.ints;
        (r.Ok? <==> 1 <= |given| <= 2) && (r.Ok? ==> r.value == given)
    {
      r := ReadPerAxis("dilations");
    }
  }

  /** After an attribute is read it is no longer reported as unhandled. */
  method ReadIsHandled(reader: OperatorReader, name: string, ty: AttrType) returns (r: Result<Option<AttrValue>, Error>)
    modifies reader
    ensures forall a :: a in reader.UnhandledAttrs() ==> a.name != name
    ensures forall a :: a in reader.UnhandledAttrs() ==> a in old(reader.UnhandledAttrs())
  {
    r := reader.GetAttr(name, ty, None);
  }

  /**
   * `constant_node_from_onnx_constant_op`: a `Constant` operator's required
   * `value` tensor, converted like an initializer and named after the
   * operator's first output.
   */
  method ConstantFromOp(op: OnnxOperator) returns (r: Result<ConstantNode, Error>)
    ensures |op.outputs| == 0 ==> r == Err(NoOutputs(op.name))
    ensures |op.outputs| > 0 ==>
      (r.Ok? <==> (AttrOf(op.attributes, "value").Some? && AttrOf(op.attributes, "value").value.TensorAttr? &&
        ConvertInitializer(AttrOf(op.attributes, "value").value.t).Ok?))
    ensures r.Ok? ==> (ValidConstant(r.value) && r.value.name == op.outputs[0] &&
      r.value == ConvertInitializer(AttrOf(op.attributes, "value").value.t).value.(name := op.outputs[0]))
  {
    if |op.outputs| == 0 {
      return Err(NoOutputs(op.name));
    }
    var outputName := op.outputs[0];
    var graph := new GraphBuilder();
    var reader := new OperatorReader(op, [], graph);
    var value :- reader.RequireAttr("value", TensorType);
    var node :- ConvertInitializer(value.t);
    r := Ok(node.(name := outputName));
  }
}
