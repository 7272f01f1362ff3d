/**
 * The graph that `tools/convert-onnx.py` builds from an ONNX model before it
 * serialises it: constant nodes (weights, converted from ONNX initializers),
 * value placeholders and operator nodes, kept in one list and found by name
 * through a name-to-index map.
 */
module OnnxNodes {
  import opened Wrappers
  import Tensors

  /** NumPy element types an ONNX initializer can arrive as. */
  datatype DType = Float32 | Int32 | Int64 | Int8 | Int16 | Bool | Other(dtypeName: string)

  /** One array element; floating-point rounding is not modelled. */
  datatype Elem = IntElem(i: int) | FloatElem(f: real) | BoolElem(b: bool)

  /**
   * A NumPy array: its element type, its own number of dimensions and its
   * elements in row-major order.
   */
  datatype NdArray = NdArray(dtype: DType, ndim: nat, data: seq<Elem>)

  /**
   * An ONNX `TensorProto`: its name, dimensions and data as
   * `numpy_helper.to_array` decodes it (an array of `|dims|` dimensions).
   */
  datatype TensorProto = TensorProto(name: string, dims: seq<nat>, arr: NdArray)

  /** The only element types the model format can store. */
  predicate Serializable(dtype: DType)
  {
    dtype == Float32 || dtype == Int32
  }

  /** A `ConstantNode`: a name, a shape and data of a serialisable type. */
  datatype ConstantNode = ConstantNode(name: string, shape: seq<nat>, arr: NdArray)

  /** What the `ConstantNode` constructor checks, and so what every constant node satisfies. */
  predicate ValidConstant(c: ConstantNode)
  {
    Tensors.Product(c.shape) == |c.arr.data| && Serializable(c.arr.dtype)
  }

  datatype Error =
    | ShapeMismatch(node: string)
    | UnsupportedDType(node: string)
    | DuplicateName(node: string)
    | InputNotFound(tensor: string)
    | OutputNotFound(tensor: string)
    | NoOutputs(op: string)
    | AttrTypeMismatch(attr: string)
    | NoValueField(attr: string)
    | MissingAttr(attr: string)
    | UnsupportedValue(attr: string)
    | MalformedEnumName(attr: string)
    | InputConflict(attr: string)
    | UnsupportedAttrType(attr: string)
    | WrongLength(attr: string)
    | UnsupportedAutoPad(value: string)
    | ScalarIndex(node: string)

  /**
   * The `ConstantNode` constructor: the data must hold as many elements as
   * the shape describes, and be `float32` or `int32`; the size is checked
   * first.
   */
  function NewConstantNode(name: string, shape: seq<nat>, arr: NdArray): (r: Result<ConstantNode, Error>)
    ensures r.Ok? <==> Tensors.Product(shape) == |arr.data| && Serializable(arr.dtype)
    ensures r.Ok? ==> r.value == ConstantNode(name, shape, arr) && ValidConstant(r.value)
    ensures Tensors.Product(shape) != |arr.data| ==> r == Err(ShapeMismatch(name))
    ensures Tensors.Product(shape) == |arr.data| && !Serializable(arr.dtype) ==> r == Err(UnsupportedDType(name))
  {
    if Tensors.Product(shape) != |arr.data| then Err(ShapeMismatch(name))
    else if !Serializable(arr.dtype) then Err(UnsupportedDType(name))
    else Ok(ConstantNode(name, shape, arr))
  }

  /**
   * `ConstantNode.get_scalar`: `None` unless the shape is `[]`, and otherwise
   * `data[0]`, which NumPy refuses with an `IndexError` on a zero-dimensional
   * array (on an array of one or more dimensions and one element it is that
   * element).
   */
  function GetScalar(c: ConstantNode): (r: Result<Option<Elem>, Error>)
    requires ValidConstant(c)
    ensures c.shape != [] <==> r == Ok(None)
    ensures c.shape == [] && c.arr.ndim == 0 <==> r == Err(ScalarIndex(c.name))
    ensures r.Ok? && r.value.Some? ==> c.arr.data == [r.value.value]
  {
    if c.shape != [] then Ok(None)
    else if c.arr.ndim == 0 then Err(ScalarIndex(c.name))
    else Ok(Some(c.arr.data[0]))
  }

  /**
   * What `get_scalar` is for: the one element of a constant whose shape is
   * `[]`, whatever the number of dimensions of the array holding it.
   */
  function ScalarOf(c: ConstantNode): (r: Option<Elem>)
    requires ValidConstant(c)
    ensures r.Some? <==> c.shape == []
    ensures r.Some? ==> c.arr.data == [r.value]
  {
    if c.shape != [] then None else Some(c.arr.data[0])
  }

  /** A scalar put into a constant node comes back out of `ScalarOf`. */
  lemma ScalarRoundTrip(name: string, x: Elem, dtype: DType, ndim: nat)
    requires Serializable(dtype)
    ensures NewConstantNode(name, [], NdArray(dtype, ndim, [x])).Ok?
    ensures ScalarOf(NewConstantNode(name, [], NdArray(dtype, ndim, [x])).value) == Some(x)
  {
  }

  /**
   * An initializer with no dimensions decodes to a zero-dimensional array,
   * so `get_scalar` of the constant made from it fails although its shape is `[]`.
   */
  lemma InitializerScalarFails(tensor: TensorProto)
    requires tensor.dims == [] && tensor.arr.ndim == |tensor.dims|
    requires ConvertInitializer(tensor).Ok?
    ensures ConvertInitializer(tensor).value.shape == []
    ensures GetScalar(ConvertInitializer(tensor).value) == Err(ScalarIndex(tensor.name))
    ensures ScalarOf(ConvertInitializer(tensor).value).Some?
  {
  }

  /** `np.clip(x, i32.min, i32.max)`: the nearest value in the `int32` range. */
  function Clamp32(x: int): (r: int)
    ensures Tensors.MinI32 <= r <= Tensors.MaxI32
    ensures Tensors.MinI32 <= x <= Tensors.MaxI32 ==> r == x
    ensures x < Tensors.MinI32 ==> r == Tensors.MinI32
    ensures x > Tensors.MaxI32 ==> r == Tensors.MaxI32
  {
    if x > Tensors.MaxI32 then Tensors.MaxI32 else if x < Tensors.MinI32 then Tensors.MinI32 else x
  }

  /** `astype(np.int32)` of a `bool`, `int8` or `int16` array: booleans become 0 or 1. */
  function Widen(e: Elem): Elem
  {
    match e
    case BoolElem(b) => IntElem(if b then 1 else 0)
    case _ => e
  }

  /** `clip(...).astype(np.int32)` of an `int64` array. */
  function Narrow(e: Elem): Elem
  {
    match e
    case IntElem(x) => IntElem(Clamp32(x))
    case _ => e
  }

  /** The data as the model stores it, or `None` for an element type the converter rejects. */
  function ConvertData(arr: NdArray): (r: Option<NdArray>)
    ensures r.Some? <==> arr.dtype in {Float32, Int32, Int64, Int8, Int16, Bool}
    ensures r.Some? ==> Serializable(r.value.dtype) && r.value.ndim == arr.ndim && |r.value.data| == |arr.data|
    ensures Serializable(arr.dtype) ==> r == Some(arr)
    ensures arr.dtype in {Bool, Int8, Int16} ==> (r.Some? && r.value.dtype == Int32 &&
      forall i :: 0 <= i < |arr.data| ==> r.value.data[i] == Widen(arr.data[i]))
    ensures arr.dtype == Int64 ==> (r.Some? && r.value.dtype == Int32 &&
      forall i :: 0 <= i < |arr.data| ==> r.value.data[i] == Narrow(arr.data[i]))
  {
    match arr.dtype
    case Float32 => Some(arr)
    case Int32 => Some(arr)
    case Bool => Some(NdArray(Int32, arr.ndim, seq(|arr.data|, i requires 0 <= i < |arr.data| => Widen(arr.data[i]))))
    case Int8 => Some(NdArray(Int32, arr.ndim, seq(|arr.data|, i requires 0 <= i < |arr.data| => Widen(arr.data[i]))))
    case Int16 => Some(NdArray(Int32, arr.ndim, seq(|arr.data|, i requires 0 <= i < |arr.data| => Widen(arr.data[i]))))
    case Int64 => Some(NdArray(Int32, arr.ndim, seq(|arr.data|, i requires 0 <= i < |arr.data| => Narrow(arr.data[i]))))
    case Other(_) => None
  }

  /** `constant_node_from_onnx_initializer`. */
  function ConvertInitializer(tensor: TensorProto): (r: Result<ConstantNode, Error>)
    ensures r.Ok? <==> (tensor.arr.dtype in {Float32, Int32, Int64, Int8, Int16, Bool} &&
      Tensors.Product(tensor.dims) == |tensor.arr.data|)
    ensures r.Ok? ==> ValidConstant(r.value) && r.value.name == tensor.name && r.value.shape == tensor.dims
    ensures r.Ok? ==> r.value.arr == ConvertData(tensor.arr).value
  {
    match ConvertData(tensor.arr)
    case None => Err(UnsupportedDType(tensor.name))
    case Some(arr) => NewConstantNode(tensor.name, tensor.dims, arr)
  }

  /** Every integer an `int64` initializer converts to lies in the `int32` range. */
  lemma Int64InRange(tensor: TensorProto)
    requires tensor.arr.dtype == Int64
    requires ConvertInitializer(tensor).Ok?
    ensures forall i :: 0 <= i < |tensor.arr.data| && tensor.arr.data[i].IntElem? ==>
      var x := ConvertInitializer(tensor).value.arr.data[i].i;
      Tensors.MinI32 <= x <= Tensors.MaxI32
  {
  }

  /** Converting an `int64` initializer whose values already fit changes no value. */
  lemma Int64InRangeKept(tensor: TensorProto)
    requires tensor.arr.dtype == Int64
    requires ConvertInitializer(tensor).Ok?
    requires forall i :: 0 <= i < |tensor.arr.data| ==> (tensor.arr.data[i].IntElem? &&
      Tensors.MinI32 <= tensor.arr.data[i].i <= Tensors.MaxI32)
    ensures ConvertInitializer(tensor).value.arr.data == tensor.arr.data
  {
    var out := ConvertInitializer(tensor).value.arr.data;
    forall i | 0 <= i < |out|
      ensures out[i] == tensor.arr.data[i]
    {
      assert out[i] == Narrow(tensor.arr.data[i]);
    }
  }

  /** A dimension of a value's shape: fixed, or a symbolic name. */
  datatype Dim = Fixed(size: nat) | Symbolic(param: string)

  /** An ONNX `TensorShapeProto.Dimension`: `dim_param` is empty when the size is fixed. */
  datatype DimProto = DimProto(dimParam: string, dimValue: nat)

  /** An ONNX `ValueInfoProto`: a graph input or output. */
  datatype ValueInfo = ValueInfo(name: string, dims: seq<DimProto>)

  datatype Node =
    | Constant(constant: ConstantNode)
    | Value(valueName: string, shape: Option<seq<Dim>>)
    | Operator(opName: string, opType: string, inputs: seq<Option<nat>>, outputs: seq<Option<nat>>)
  {
    function Name(): string
    {
      match this
      case Constant(c) => c.name
      case Value(n, _) => n
      case Operator(n, _, _, _) => n
    }
  }

  /** `d.dim_param or d.dim_value`. */
  function DimOf(d: DimProto): Dim
  {
    if d.dimParam != "" then Symbolic(d.dimParam) else Fixed(d.dimValue)
  }

  /** `value_node_from_onnx_value`: a value with no dimensions has an unknown shape. */
  function ValueNodeOf(v: ValueInfo): (r: Node)
    ensures r.Value? && r.Name() == v.name
    ensures r.shape.None? <==> v.dims == []
    ensures r.shape.Some? ==> (|r.shape.value| == |v.dims| &&
      forall i :: 0 <= i < |v.dims| ==> r.shape.value[i] == DimOf(v.dims[i]))
  {
    if v.dims == [] then Value(v.name, None)
    else Value(v.name, Some(seq(|v.dims|, i requires 0 <= i < |v.dims| => DimOf(v.dims[i]))))
  }

  /** The names of a run of graph inputs. */
  function Names(vs: seq<ValueInfo>): (r: set<string>)
    ensures forall i :: 0 <= i < |vs| ==> vs[i].name in r
    ensures forall n :: n in r ==> exists i :: 0 <= i < |vs| && vs[i].name == n
  {
    if vs == [] then {} else Names(vs[..|vs| - 1]) + {vs[|vs| - 1].name}
  }

  /**
   * The value nodes that adding the graph inputs `vs` appends when the names
   * in `known` are taken: an input whose name is known, or came earlier, is
   * skipped.
   */
  function NewInputs(vs: seq<ValueInfo>, known: set<string>): seq<Node>
  {
    if vs == [] then []
    else
      var earlier := vs[..|vs| - 1];
      var v := vs[|vs| - 1];
      if v.name in known + Names(earlier) then NewInputs(earlier, known)
      else NewInputs(earlier, known) + [ValueNodeOf(v)]
  }

  /** The appended nodes are value nodes with distinct names, none of them known before. */
  lemma {:induction false} NewInputsFresh(vs: seq<ValueInfo>, known: set<string>)
    ensures forall i :: 0 <= i < |NewInputs(vs, known)| ==>
      NewInputs(vs, known)[i].Value? && NewInputs(vs, known)[i].Name() in Names(vs) - known
    ensures forall i, j :: 0 <= i < j < |NewInputs(vs, known)| ==>
      NewInputs(vs, known)[i].Name() != NewInputs(vs, known)[j].Name()
  {
    if vs != [] {
      NewInputsFresh(vs[..|vs| - 1], known);
    }
  }

  /**
   * The node list the converter is building, `tensor_map` from node name to
   * position, and `constant_map` from name to constant node.
   */
  class GraphBuilder {
    var nodes: seq<Node>
    var tensorMap: map<string, nat>
    var constantMap: map<string, ConstantNode>

    /** The maps index the list exactly: names are unique and each maps to its position. */
    ghost predicate Valid()
      reads this
    {
      (forall name :: name in tensorMap ==> tensorMap[name] < |nodes| && nodes[tensorMap[name]].Name() == name) &&
      (forall i :: 0 <= i < |nodes| ==> nodes[i].Name() in tensorMap && tensorMap[nodes[i].Name()] == i) &&
      (forall name :: name in constantMap ==> name in tensorMap && nodes[tensorMap[name]] == Constant(constantMap[name])) &&
      (forall i :: 0 <= i < |nodes| && nodes[i].Constant? ==> nodes[i].Name() in constantMap)
    }

    constructor ()
      ensures Valid() && nodes == [] && tensorMap == map[] && constantMap == map[]
    {
      nodes := [];
      tensorMap := map[];
      constantMap := map[];
    }

    /** The names of the nodes added so far. */
    function NamesTaken(): (r: set<string>)
      reads this
      requires Valid()
      ensures forall i :: 0 <= i < |nodes| ==> nodes[i].Name() in r
      ensures forall name :: name in r ==> exists i :: 0 <= i < |nodes| && nodes[i].Name() == name
    {
      tensorMap.Keys
    }

    /**
     * `add_node`: a node whose name is taken is refused; otherwise it is
     * appended, its name maps to its position, which is returned, and a
     * constant is also recorded in the constant map.
     */
    method AddNode(node: Node) returns (r: Result<nat, Error>)
      requires Valid()
      modifies this
      ensures Valid()
      ensures node.Name() in old(tensorMap) ==> (r == Err(DuplicateName(node.Name())) &&
        nodes == old(nodes) && tensorMap == old(tensorMap) && constantMap == old(constantMap))
      ensures node.Name() !in old(tensorMap) ==> (r == Ok(|old(nodes)|) &&
        nodes == old(nodes) + [node] && tensorMap == old(tensorMap)[node.Name() := |old(nodes)|] &&
        constantMap == (if node.Constant? then old(constantMap)[node.Name() := node.constant] else old(constantMap)))
    {
      var name := node.Name();
      if name in tensorMap {
        return Err(DuplicateName(name));
      }
      if node.Constant? {
        constantMap := constantMap[name := node.constant];
      }
      nodes := nodes + [node];
      tensorMap := tensorMap[name := |nodes| - 1];
      r := Ok(|nodes| - 1);
    }

    /**
     * The graph-input loop of `graph_from_onnx_graph`: an input whose name is
     * already taken (by an initializer, or an earlier input) is skipped, and
     * every other becomes a value node.
     */
    method AddGraphInputs(vs: seq<ValueInfo>)
      requires Valid()
      modifies this
      ensures Valid()
      ensures nodes == old(nodes) + NewInputs(vs, old(tensorMap).Keys)
      ensures tensorMap.Keys == old(tensorMap).Keys + Names(vs)
      ensures forall name :: name in old(tensorMap) ==> tensorMap[name] == old(tensorMap)[name]
      ensures constantMap == old(constantMap)
    {
      ghost var known := tensorMap.Keys;
      for k := 0 to |vs|
        invariant Valid()
        invariant nodes == old(nodes) + NewInputs(vs[..k], known)
        invariant tensorMap.Keys == known + Names(vs[..k])
        invariant forall name :: name in old(tensorMap) ==> tensorMap[name] == old(tensorMap)[name]
        invariant constantMap == old(constantMap)
      {
        var v := vs[k];
        assert vs[..k + 1][..k] == vs[..k] && vs[..k + 1][k] == v;
        assert Names(vs[..k + 1]) == Names(vs[..k]) + {v.name};
        if v.name !in tensorMap {
          assert NewInputs(vs[..k + 1], known) == NewInputs(vs[..k], known) + [ValueNodeOf(v)];
          var _ := AddNode(ValueNodeOf(v));
        } else {
          assert NewInputs(vs[..k + 1], known) == NewInputs(vs[..k], known);
        }
      }
      assert vs[..|vs|] == vs;
    }
  }

  /** Adding a node and then looking its name up gives the node back. */
  method AddThenLookup(g: GraphBuilder, node: Node) returns (found: Option<Node>)
    requires g.Valid() && node.Name() !in g.tensorMap
    modifies g
    ensures g.Valid() && found == Some(node)
  {
    var _ := g.AddNode(node);
    found := if node.Name() in g.tensorMap then Some(g.nodes[g.tensorMap[node.Name()]]) else None;
  }

  /**
   * The input lookup of `op_node_from_onnx_operator`: an empty name is an
   * omitted optional input, every other name must be a known tensor.
   */
  method ResolveInputs(names: seq<string>, tensorMap: map<string, nat>) returns (r: Result<seq<Option<nat>>, Error>)
    ensures r.Ok? <==> forall i :: 0 <= i < |names| && names[i] != "" ==> names[i] in tensorMap
    ensures r.Ok? ==> |r.value| == |names| && forall i :: 0 <= i < |names| ==>
      r.value[i] == (if names[i] == "" then None else Some(tensorMap[names[i]]))
  {
    var ids: seq<Option<nat>> := [];
    for k := 0 to |names|
      invariant |ids| == k
      invariant forall i :: 0 <= i < k ==> names[i] != "" ==> names[i] in tensorMap
      invariant forall i :: 0 <= i < k ==> ids[i] == (if names[i] == "" then None else Some(tensorMap[names[i]]))
    {
      var name := names[k];
      if name == "" {
        ids := ids + [None];
      } else if name in tensorMap {
        ids := ids + [Some(tensorMap[name])];
      } else {
        return Err(InputNotFound(name));
      }
    }
    r := Ok(ids);
  }

  /** The output lookup of `op_node_from_onnx_operator`: every output name must be a known tensor. */
  method ResolveOutputs(names: seq<string>, tensorMap: map<string, nat>) returns (r: Result<seq<Option<nat>>, Error>)
    ensures r.Ok? <==> forall i :: 0 <= i < |names| ==> names[i] in tensorMap
    ensures r.Ok? ==> |r.value| == |names| && forall i :: 0 <= i < |names| ==> r.value[i] == Some(tensorMap[names[i]])
  {
    var ids: seq<Option<nat>> := [];
    for k := 0 to |names|
      invariant |ids| == k
      invariant forall i :: 0 <= i < k ==> names[i] in tensorMap && ids[i] == Some(tensorMap[names[i]])
    {
      var name := names[k];
      if name !in tensorMap {
        return Err(OutputNotFound(name));
      }
      ids := ids + [Some(tensorMap[name])];
    }
    r := Ok(ids);
  }

  /** `node_id` of `build_operator_node`: an absent node id is written as -1. */
  function NodeId(id: Option<nat>): (r: int)
    ensures r >= -1
    ensures r == -1 <==> id.None?
  {
    if id.None? then -1 else id.value
  }

  /** How a reader of the model format turns an id back into an optional node. */
  function FromNodeId(x: int): Option<nat>
  {
    if x < 0 then None else Some(x)
  }

  /** Writing an id and reading it back loses nothing. */
  lemma NodeIdRoundTrip(id: Option<nat>)
    ensures FromNodeId(NodeId(id)) == id
  {
  }

  /** The written ids are distinct where the node ids are. */
  lemma NodeIdInjective(a: Option<nat>, b: Option<nat>)
    ensures NodeId(a) == NodeId(b) ==> a == b
  {
    NodeIdRoundTrip(a);
    NodeIdRoundTrip(b);
  }
}
