# rten core, modelled in Dafny

rten is an inference runtime for neural networks in the ONNX format. A model
is a dataflow graph: an append-only list of nodes (value placeholders,
constants, operators). The planner walks back from the requested outputs and
orders the operators they need. The executor runs that order, feeding each
operator its inputs by position. This project models that core and proves
what it promises:

- **Graph** (`graph.dfy`, `src/graph.rs`): node construction, the
  depth-first planner and the executor. Operators are functions from a
  sequence of values to a value. `Run` is proved equal to a reference
  evaluation `Eval`.
- **Operators** (`src/ops/mod.rs`, `src/ops/convert.rs`, `src/ops/slice.rs`,
  `src/ops/reduce.rs`): the tagged `Input`/`Output` unions, the `OpError`
  taxonomy and the input helpers. Also the shape logic and data movement of
  Reshape, Squeeze/Unsqueeze, Concat, Pad, Gather, Transpose, Shape,
  ConstantOfShape, Cast, Identity, Slice, the reductions, ArgMax/ArgMin,
  CumSum, NonZero and TopK. A tensor is a shape with row-major data
  (`tensors.dfy`). Modules: `ops*.dfy`, `slicing.dfy`, `lanes.dfy`,
  `reduce_order.dfy`.
- **Reference HWC operators** (`hwc_ops.dfy`, `src/ops.rs`): the shape
  formulas and channel checks of the two convolutions and max pooling, plus
  `pad_2d` and `concat`. HWC means tensors laid out as height, width,
  channels.
- **Integer geometry** (`geometry.dfy`, `drawing.dfy`, `polygons.dfy`,
  `contours.dfy`, `neighbor_ring.dfy`, `rect_border.dfy`,
  `src/geometry.rs`): points, overlaps, rects, bounding boxes, the
  `Polygons` buffer and its iterator, and the grid routines `fill_rect`,
  `stroke_rect`, `draw_line` and `draw_polygon`. Also `find_contours`, the
  border following of Suzuki and Abe (1985, Appendix 1), over arrays changed
  in place.
- **ONNX converter** (`onnx_names.dfy`, `onnx_nodes.dfy`,
  `onnx_reader.dfy`, `tools/convert-onnx.py`):
  - enum-name conversion;
  - constant nodes and initializer conversion;
  - the node registry;
  - the operator attribute reader with its handled-attribute bookkeeping;
  - the pad, stride and dilation readers.
- **Token generator** (`kv_names.dfy`, `generator.dfy`,
  `rten-examples/src/generator.rs`):
  - key-value cache discovery by name;
  - the per-step inputs;
  - the state update of `generate_next_token`;
  - `stop_on_token` and the text decoder's buffering.

  The model run, its arg-max sampling and the tokenizer are parameters.

Where the source is wrong, the operators model it as written, with one
exception: TopK runs the corrected comparator (see "## Left out"). Where a bug
changes results, "## Findings" names both the as-written member and a
corrected one with its intended property proved. Integer overflow follows
Rust's debug build: an overflowing `+`, `-` or `*` panics, and the panic is
an error value, except for the overflows "## Left out" names (the `i32`
doubling in `draw_line`). An `as` cast keeps the low bits (`WrapI32`, `AsI32`,
`AsUsize`).

## Model

| member | source | states |
|---|---|---|
| Graph.OperatorNodes | src/graph.rs:163-170 | every entry of the operator map is keyed by its node's output id |
| Graph.BoundValues | src/graph.rs:91-96 | the bound ids are exactly the input ids plus the constant node ids |
| Graph.Graph.constructor | src/graph.rs:38-40 | a new graph has no nodes |
| Graph.Graph.AddValue | src/graph.rs:74-77 | appends one value node and returns its index |
| Graph.Graph.AddConstant | src/graph.rs:63-66 | appends one constant node and returns its index |
| Graph.Graph.AddOp | src/graph.rs:50-58 | appends a value node and then the operator producing it, and returns the value node's id |
| Graph.Graph.BindValues | src/graph.rs:91-96 | the loop binds the inputs and then every constant, so a constant replaces an input bound to the same id |
| Graph.PlanBuilder.constructor | src/graph.rs:220-224 | starts with an empty plan over the given resolved set and operator map |
| Graph.PlanBuilder.Visit | src/graph.rs:190-203 | succeeds exactly when every input of the operator is available; on success the plan stays valid, gains the operator as its last step, and pushed only operators ranked below it; on failure the missing id is neither bound nor produced by an operator |
| Graph.PlanBuilder.VisitInputs | src/graph.rs:191-200 | succeeds exactly when every input is available, and then every input is resolved and no bound id was planned |
| Graph.PlanBuilder.VisitInput | src/graph.rs:192-199 | succeeds exactly when the input is bound or is the output of an operator whose own inputs are available; on failure the reported id is neither bound nor produced; on success the input is resolved and no bound id was planned |
| Graph.PlanBuilder.Plan | src/graph.rs:205-217 | succeeds exactly when every requested id is an operator whose inputs are available or is bound; the plan is valid (each step's inputs are bound or computed by an earlier step), covers every requested operator output, repeats only requested ids, plans a bound id only when it was requested, and is empty when no requested id is an operator output |
| Graph.PlanBuilder.PlanOutput | src/graph.rs:206-215 | one requested id: an operator output is visited and ends the plan, a bound id adds nothing, anything else is the missing-value error |
| Graph.PlanAvailable | src/graph.rs:190-203 | every operator in a valid plan is computable from the bound values |
| Graph.PlanIdsAreOperators | src/graph.rs:202 | a valid plan holds only operator outputs |
| Graph.FinishVisit | src/graph.rs:201-202 | pushing the visited operator after its inputs keeps the plan valid |
| Graph.PushStep | src/graph.rs:202 | appending a step whose inputs are resolved keeps a plan valid and adds exactly its id |
| Graph.Graph.CreatePlan | src/graph.rs:157-226 | succeeds exactly when every requested id can be produced from the inputs and constants, and the plan then meets the plan specification above |
| Graph.GatherInputs | src/graph.rs:101-114 | each operator input is taken from the bound values first and from earlier results otherwise, in declared order |
| Graph.EvalStep | src/graph.rs:122 | running an operator on the values of its inputs gives the reference value of its output |
| Graph.RunStep | src/graph.rs:100-133 | after one step, every computed result equals its reference value |
| Graph.ExecutePlan | src/graph.rs:98-135 | after the loop, results exist exactly for the planned ids, and each equals the reference value of its id |
| Graph.CollectOutputs | src/graph.rs:137-149 | fails exactly when an unbound operator output is requested twice (its result was moved out the first time); otherwise one value per request, in request order, each the bound value or the computed result |
| Graph.Graph.Run | src/graph.rs:81-150 | fails with a missing value exactly when some requested id cannot be produced; otherwise fails only when an unbound operator output is requested twice; on success returns one value per requested id, each equal to the reference evaluation of that id |
| Ops.Input.AsFloat | src/ops/mod.rs:62-68 | a float tensor exactly for a float input, and then that tensor |
| Ops.Input.AsInt | src/ops/mod.rs:70-76 | an int tensor exactly for an int input, and then that tensor |
| Ops.Output.IntoInt | src/ops/mod.rs:98-104 | an int tensor exactly for an int output, and then that tensor |
| Ops.Output.IntoFloat | src/ops/mod.rs:114-120 | a float tensor exactly for a float output, and then that tensor |
| Ops.Output.AsInput | src/ops/mod.rs:79-88 | viewing an output as an input keeps its kind and its tensor |
| Ops.GetInputAsFloat | src/ops/mod.rs:230-238 | a missing index is `MissingInputs`, an int tensor is `UnsupportedInputType`, a float tensor is returned |
| Ops.GetOptionalInputAsFloat | src/ops/mod.rs:241-249 | `Ok(None)` exactly when the index is past the inputs |
| Ops.GetInputAsInt | src/ops/mod.rs:252-257 | a missing index is `MissingInputs`, a float tensor is `UnsupportedInputType`, an int tensor is returned |
| Ops.GetOptionalInputAsInt | src/ops/mod.rs:260-268 | `Ok(None)` exactly when the index is past the inputs |
| Ops.OptionalInputAgrees | src/ops/mod.rs:230-268 | an optional input differs from the required one only when absent: a present input gives the same tensor or the same error |
| Ops.WrapI32 | src/ops/mod.rs:722 | `as i32` on a size keeps it when it fits and is otherwise congruent to it modulo 2^32 |
| Ops.AsUsize | src/ops/mod.rs:410 | `as usize` keeps a non-negative `i32` and wraps a negative one to itself plus 2^64 |
| Ops.IntToFloat | src/ops/mod.rs:374 | an int becomes the float of the same value |
| Ops.FloatToInt | src/ops/mod.rs:377 | `as i32` on a float: NaN is 0, in-range values truncate toward zero, out-of-range values saturate |
| Ops.CanRunInPlace | src/ops/mod.rs:180-182 | only the operators that override the default can run in place, and Reshape's override says no |
| Ops.DefaultRunInPlace | src/ops/mod.rs:190-192 | the default in-place run returns its input untouched |
| Ops.FirstInput | src/ops/mod.rs:597 | the first input, or `MissingInputs` exactly when there is none |
| Ops.InputToOutput | src/ops/mod.rs:599-600 | cloning an input into an output is undone by viewing it as an input |
| Ops.IdentityRun | src/ops/mod.rs:596-602 | fails exactly on no inputs, with `MissingInputs`; otherwise the output is the first input |
| Ops.IdentityRunInPlace | src/ops/mod.rs:608-610 | Identity's in-place run is the default, the input untouched |
| Ops.IdentityInPlaceAgrees | src/ops/mod.rs:596-610 | running Identity in place gives what running it on a copy gives |
| Ops.ShapeRun | src/ops/mod.rs:718-725 | fails exactly on no inputs; otherwise a 1-D int tensor with one entry per input dimension, each entry the dimension when it fits an `i32` |
| Ops.UsizeShape | src/ops/mod.rs:410 | each listed dimension converted with `as usize` |
| Ops.ConstantOfShapeRun | src/ops/mod.rs:408-413 | a missing input or a float input fails as `get_input_as_int` does; otherwise fails exactly when a partial product of the dimensions overflows `usize` or the buffer exceeds `isize::MAX` bytes; on success every element is the value and the shape is the converted dimensions |
| Ops.ConstantOfShapeFits | src/ops/mod.rs:408-413 | positive dimensions whose buffer fits always give a tensor |
| Ops.NegativeDimensionPanics | src/ops/mod.rs:410-412 | a negative dimension among positive ones always fails (a panic in the source) |
| Ops.NegativeBesideEmpty | src/ops/mod.rs:410-412 | a negative dimension beside a zero gives an empty tensor with a huge dimension, as the unchecked cast does |
| Ops.CastRun | src/ops/mod.rs:370-382 | fails exactly on no inputs; the output has the target kind and the input's shape, and a cast to the input's own kind is a copy |
| Ops.CastRunInPlace | src/ops/mod.rs:388-395 | a tensor already of the target kind is returned as is; any other is cast as a fresh copy |
| Ops.CastInPlaceAgrees | src/ops/mod.rs:370-395 | casting in place is observably the same as casting a copy |
| Ops.GemmCheck | src/ops/mod.rs:512-521 | Gemm proceeds exactly when alpha is 1 and beta is 0 or 1, and otherwise fails with the alpha message first |
| Ops.GemmOutputShape | src/ops/mod.rs:523-534 | the output is rows of the possibly transposed `a` by columns of the possibly transposed `b` |
| Ops.MatMulOutputShape | src/ops/mod.rs:613-627 | succeeds exactly when the inner dimensions agree, with shape rows of `a` by columns of `b`; otherwise `IncompatibleInputShapes` |
| Ops.ExtractScalar | src/ops/mod.rs:862-868 | succeeds exactly on a one-element tensor, with that element; otherwise "Expected scalar value" |
| Ops.ExtractScalarInt | src/ops/mod.rs:870-876 | a float input fails as incompatible; an int input is `extract_scalar` |
| Ops.ExtractScalarFloat | src/ops/mod.rs:878-884 | an int input fails as incompatible, with the source's "Expected int input" message; a float input is `extract_scalar` |
| OpsGather.GatherShape | src/ops/mod.rs:437-442 | the output shape is the input's leading dimensions, then the indices' shape, then the input's trailing dimensions |
| OpsGather.TakeIndex | src/ops/mod.rs:416-421 | the input index an output index reads under the ONNX definition: leading and trailing coordinates are copied, and the gathered dimension takes the index entry |
| OpsGather.GatherSpec | src/ops/mod.rs:416-421 | the ONNX gather: its shape is the gather shape, and each element is the input element at the gathered index |
| OpsGather.NextIndex | src/ops/mod.rs:447-462 | the input index the loop holds after an output index, given the one it held before |
| OpsGather.ReadIndex | src/ops/mod.rs:444-463 | the index the source reads is the ONNX index, except that with a 0-D indices tensor and an input of rank 2 or more, the dimension after `axis` stays 0 |
| OpsGather.InputIndex | src/ops/mod.rs:447-462 | the loop over one output index's dimensions computes the next input index |
| OpsGather.ScalarIntoVector | src/ops/mod.rs:448-451 | a 0-D gather from a vector stores the scalar index at `axis` |
| OpsGather.LoopDone | src/ops/mod.rs:453-461 | after the loop, every written dimension holds the gather's coordinate and every other dimension keeps its previous value |
| OpsGather.FinalWritten | src/ops/mod.rs:453-461 | once every output dimension is done, every input dimension is written, except the one after `axis` in a 0-D gather |
| OpsGather.GatherAsWritten | src/ops/mod.rs:443-464 | the source's gather has the gather shape and reads each element at the index the loop builds |
| OpsGather.GatherAgrees | src/ops/mod.rs:422-467 | with indices of rank 1 or more, or a vector input, the source's gather equals the ONNX gather |
| OpsGather.GatheredAll | src/ops/mod.rs:444-464 | the filled output is the as-written gather's data |
| OpsGather.CheckIndices | src/ops/mod.rs:430-434 | the range check passes exactly when every index is in `[0, size)` |
| OpsGather.Gather | src/ops/mod.rs:422-467 | fails with "`axis` is out of range", then with "Entry in `indices` is out of range"; succeeds exactly when both checks pass, with the as-written gather |
| OpsGather.GatherRun | src/ops/mod.rs:479-486 | a missing input or missing indices is `MissingInputs`, float indices are `UnsupportedInputType`; otherwise the gather on either kind, keeping the input's kind |
| OpsGather.ScalarIndexSkipsDimension | src/ops/mod.rs:447-462 | for input [[1, 2], [3, 4]], axis 0 and a 0-D index 1, the source gives [3, 3] |
| OpsGather.ScalarIndexGather | src/ops/mod.rs:416-421 | for the same input, the ONNX gather gives [3, 4] |
| OpsReshape.CompleteShape | src/ops/mod.rs:675-681 | the requested shape with each `-1` replaced by the inferred size and every other entry kept |
| OpsReshape.InferredSize | src/ops/mod.rs:662-668 | an empty input infers 0; otherwise quotient and remainder of the length by the specified size, and `None` (the division panic) exactly when that size is 0 |
| OpsReshape.ReshapeShape | src/ops/mod.rs:644-684 | a successful shape lists valid dimensions, keeps every specified one, and has exactly the input's element count |
| OpsReshape.Reshape | src/ops/mod.rs:644-684 | the scan loop succeeds exactly when the shape function does, with its error otherwise; the result keeps the data and takes the computed shape |
| OpsReshape.SecondNegOne | src/ops/mod.rs:654-657 | a second `-1` before any entry below `-1` makes the shape invalid without reporting a bad size |
| OpsReshape.ReshapeRun | src/ops/mod.rs:693-700 | a missing input or missing shape is `MissingInputs`, a float shape is `UnsupportedInputType`; with an int shape it succeeds exactly when ReshapeShape of the input's length does, fails with its error otherwise, and on success keeps the input's kind and data under ReshapeShape's shape |
| OpsReshape.CompleteShapeProduct | src/ops/mod.rs:675-681 | the completed shape's element count is the specified size, times the inferred size when there is a `-1` |
| OpsReshape.ReshapeInfers | src/ops/mod.rs:646-681 | with one `-1` and a nonzero specified size dividing a nonzero length, the `-1` becomes the quotient (the test at src/ops/mod.rs:1425-1439) |
| OpsReshape.ReshapeEmpty | src/ops/mod.rs:662-663 | an empty input gives the `-1` dimension size 0 |
| OpsReshape.ReshapeExact | src/ops/mod.rs:644-684 | without `-1`, reshape succeeds exactly when the requested shape has the input's length |
| OpsReshape.Keep | src/ops/mod.rs:1007-1025 | the shape without the removed positions, in order, never longer |
| OpsReshape.SqueezeOnesShape | src/ops/mod.rs:1011-1021 | the intended squeeze: with axes, succeeds exactly when every listed dimension has size 1 and drops them; without, drops every dimension of size 1 |
| OpsReshape.SqueezeAllAsWritten | src/ops/mod.rs:1021 | the filter without axes keeps only dimensions above size 1 |
| OpsReshape.SqueezeShape | src/ops/mod.rs:1007-1025 | the filter as written: with axes it is the intended one; without, every kept dimension is above size 1 |
| OpsReshape.SqueezedShape | src/ops/mod.rs:1007-1026 | the reshape after the filter succeeds exactly when the filtered shape keeps the element count |
| OpsReshape.EmptySqueezeFails | src/ops/mod.rs:1021-1026 | without axes, a tensor with an empty dimension cannot be squeezed as written, while the intended squeeze succeeds |
| OpsReshape.SqueezeAgrees | src/ops/mod.rs:1006-1027 | when no dimension is empty, or axes are given, the squeeze as written is the intended one |
| OpsReshape.SqueezeDropsEmptyDimension | src/ops/mod.rs:1021-1026 | for shape [0, 3], the filter as written gives [3] and the reshape fails, while the intended squeeze keeps [0, 3] |
| OpsReshape.KeepOnesProduct | src/ops/mod.rs:1007-1025 | dropping only dimensions of size 1 keeps the element count |
| OpsReshape.SqueezeKeepsLength | src/ops/mod.rs:1006-1027 | an intended squeeze that succeeds keeps the element count |
| OpsReshape.SqueezeOnesLeavesNone | src/ops/mod.rs:1021 | without axes, the intended squeeze leaves no dimension of size 1 |
| OpsReshape.SqueezeInPlace | src/ops/mod.rs:1006-1027 | the tensor takes the squeezed shape and keeps its data, or is left unchanged with the squeeze's error |
| OpsReshape.Squeeze | src/ops/mod.rs:1029-1033 | a squeezed copy: same data, the squeezed shape, no dimension of size 1 or less left without axes |
| OpsReshape.SqueezeRun | src/ops/mod.rs:1045-1053 | no inputs is `MissingInputs`; otherwise the squeeze of the first input, keeping its kind and data |
| OpsReshape.SqueezeRunInPlace | src/ops/mod.rs:1059-1072 | the owned input squeezed in place, with the same outcome as the copying run |
| OpsReshape.SortAxes | src/ops/mod.rs:1112-1113 | the axes sorted ascending, as a permutation of the given ones |
| OpsReshape.Unsqueeze | src/ops/mod.rs:1110-1118 | inserts a size-1 dimension at each axis in ascending order and keeps the data; fails exactly when an insertion position is past the current rank |
| OpsReshape.InsertOneProduct | src/ops/mod.rs:1114-1116 | inserting a dimension of size 1 keeps the element count |
| OpsReshape.UnsqueezeRun | src/ops/mod.rs:1130-1137 | no inputs is `MissingInputs`; otherwise the unsqueeze of the first input, keeping its kind and data |
| OpsReshape.InsertOnesFails | src/ops/mod.rs:1114-1116 | once an insertion fails, every longer run of insertions fails |
| OpsReshape.SqueezeUnsqueeze | src/ops/mod.rs:1006-1118 | unsqueezing at distinct in-range axes and then squeezing the same axes gives back the shape |
| OpsConcat.CheckShapes | src/ops/mod.rs:734-748 | passes exactly when every later input has the first input's rank and its sizes outside `dim`; otherwise one of the two shape errors |
| OpsConcat.CheckInputShapes | src/ops/mod.rs:734-748 | the nested check loops give the shape check's verdict |
| OpsConcat.OutputShape | src/ops/mod.rs:750-753 | the loop gives the first input's shape with `dim` grown by each later input's size |
| OpsConcat.Advance | src/ops/mod.rs:770-772 | after one round, each iterator has lost one chunk, or what it had left |
| OpsConcat.InterleaveStep | src/ops/mod.rs:769-773 | the copy is one round of chunks followed by the copy of what is left |
| OpsConcat.AdvanceShrinks | src/ops/mod.rs:769 | a round that outputs something leaves fewer elements, so the `while` loop ends |
| OpsConcat.InterleaveLength | src/ops/mod.rs:769-773 | the copy writes exactly as many elements as the inputs hold |
| OpsConcat.InterleaveWhole | src/ops/mod.rs:769-773 | when every chunk is a whole input, the inputs are joined one after the other |
| OpsConcat.InterleaveSingle | src/ops/mod.rs:769-773 | a single input comes back unchanged, whatever its chunk size |
| OpsConcat.InterleaveRows | src/ops/mod.rs:769-773 | inputs that each hold the same number of chunks are copied in exactly that many rounds |
| OpsConcat.InterleavePairs | src/ops/mod.rs:769-773 | two equal-length inputs with one-element chunks alternate element by element |
| OpsConcat.Datas | src/ops/mod.rs:761-767 | each input's elements, in input order |
| OpsConcat.Chunks | src/ops/mod.rs:764 | each input's chunk is the element count of its dimensions from `dim` on |
| OpsConcat.ChunksProgress | src/ops/mod.rs:764-769 | an input with a zero chunk has no elements, so the loop cannot spin on it |
| OpsConcat.ConcatSpecWellFormed | src/ops/mod.rs:750-775 | the result's data fills its shape |
| OpsConcat.ConcatFirstDim | src/ops/mod.rs:728-776 | along the first dimension, the inputs' data are placed one after the other |
| OpsConcat.ConcatSingle | src/ops/mod.rs:728-776 | the concatenation of one input is that input |
| OpsConcat.ChunksAre | src/ops/mod.rs:764 | each chunk is the input's size along `dim` times the common size of the dimensions after it |
| OpsConcat.ConcatRounds | src/ops/mod.rs:769-773 | every input holds one chunk per index of the dimensions before `dim` |
| OpsConcat.ConcatRows | src/ops/mod.rs:769-773 | the result is the inputs' chunks taken round by round, one round per index before `dim` |
| OpsConcat.RowsPosition | src/ops/mod.rs:769-773 | in the rounds seen as outer x total x inner, position [p, offset + k, q] holds input j's element [p, k, q] |
| OpsConcat.ConcatAt | src/ops/mod.rs:728-776 | for every `dim`, the result at [p, offset + k, q] is input j's element at [p, k, q], where `offset` is the inputs before j along `dim` (the ONNX concat, element by element) |
| OpsConcat.OneRound | src/ops/mod.rs:770-772 | the inner loop takes one chunk from each iterator in input order and leaves the rest |
| OpsConcat.CopyChunks | src/ops/mod.rs:769-773 | the copy loop computes the interleaving of the inputs' chunks |
| OpsConcat.Concat | src/ops/mod.rs:728-776 | no inputs panics on the index; `dim` past the first rank is "dim is larger than input rank"; then the shape check's error; succeeds exactly when the inputs are concatenable, with the concatenation |
| OpsConcat.FloatsKept | src/ops/mod.rs:792-801 | as written: the float inputs, with each int input dropped by the `flatten` |
| OpsConcat.IntsKept | src/ops/mod.rs:805-814 | as written: the int inputs, with each float input dropped by the `flatten` |
| OpsConcat.FloatInputs | src/ops/mod.rs:792-801 | the intended check: succeeds exactly when every input is a float tensor, and otherwise the type error |
| OpsConcat.IntInputs | src/ops/mod.rs:805-814 | the intended check: succeeds exactly when every input is an int tensor, and otherwise the type error |
| OpsConcat.FloatInputsAgree | src/ops/mod.rs:792-801 | when all inputs are floats, the as-written filter and the intended check agree |
| OpsConcat.IntInputsAgree | src/ops/mod.rs:805-814 | when all inputs are ints, the as-written filter and the intended check agree |
| OpsConcat.AllFloatsKept | src/ops/mod.rs:792-801 | with no input of the other kind, the filter keeps every input, in order |
| OpsConcat.AllIntsKept | src/ops/mod.rs:805-814 | with no input of the other kind, the filter keeps every input, in order |
| OpsConcat.MixedConcatDropsInput | src/ops/mod.rs:792-801 | as written, [float a, int b] concatenates `a` alone, where the intended check reports the type error |
| OpsConcat.ConcatRun | src/ops/mod.rs:789-818 | no inputs is `MissingInputs`; otherwise the inputs of the first input's kind are concatenated, and the run succeeds exactly when those are concatenable |
| OpsPad.PaddingLength | src/ops/mod.rs:826 | a padding that passes the shape check holds two entries per input dimension |
| OpsPad.PadShape | src/ops/mod.rs:835-844 | each dimension grows by its start and its end padding |
| OpsPad.Starts | src/ops/mod.rs:853-855 | the start paddings, one per dimension |
| OpsPad.Shift | src/ops/mod.rs:852-855 | an index moved forward by the start paddings, coordinate by coordinate |
| OpsPad.Unshift | src/ops/mod.rs:850-857 | an output index inside the shifted input comes from exactly one input index |
| OpsPad.ShiftInBounds | src/ops/mod.rs:852-856 | a shifted input index lands inside the padded shape, and shifting back gives it again |
| OpsPad.PadSpecWellFormed | src/ops/mod.rs:835-848 | the padded tensor has the padded shape and data to fill it |
| OpsPad.PadKeepsInput | src/ops/mod.rs:850-857 | every input element reappears at its index moved by the start padding |
| OpsPad.PadBorder | src/ops/mod.rs:847 | every output index outside the shifted input holds the constant |
| OpsPad.PadNothing | src/ops/mod.rs:821-860 | zero padding leaves the tensor as it is |
| OpsPad.CheckPadding | src/ops/mod.rs:826-833 | the padding's shape is checked before the sign of its entries, each with its own message, and it passes exactly when both hold |
| OpsPad.ShiftIndex | src/ops/mod.rs:853-855 | the inner loop moves each coordinate by its start padding |
| OpsPad.Pad | src/ops/mod.rs:821-860 | fails with the padding errors in the source's order, succeeds exactly for a valid padding, and then gives the padded tensor: input elements shifted, the constant elsewhere |
| OpsPad.PadRun | src/ops/mod.rs:894-916 | a missing input or bad pads fail as `get_input_as_int` does; a bad axes input fails as the optional getter does; any int axes input is refused as unsupported; otherwise the pad with the scalar constant, 0 when absent |
| OpsTranspose.Reversed | src/ops/mod.rs:1080 | the dimensions in reverse order |
| OpsTranspose.ReversedIsPermutation | src/ops/mod.rs:1080-1081 | the reversed order is a permutation |
| OpsTranspose.PermuteShape | src/ops/mod.rs:1078 | output dimension i is input dimension `order[i]` |
| OpsTranspose.SourceIndex | src/ops/mod.rs:1078 | the input index whose element lands at an output index is in bounds and inverts the order |
| OpsTranspose.PermuteAt | src/ops/mod.rs:1075-1085 | the permuted tensor at an output index is the input at its source index |
| OpsTranspose.Transpose | src/ops/mod.rs:1075-1085 | succeeds exactly when there is no order or it is a permutation of the dimensions; the result keeps the rank |
| OpsTranspose.PermuteMoves | src/ops/mod.rs:1075-1085 | the input element at an index is found at that index reordered |
| OpsTranspose.PermuteIdentity | src/ops/mod.rs:1075-1085 | the identity order leaves the tensor unchanged |
| OpsTranspose.TransposeTwice | src/ops/mod.rs:1075-1085 | reversing the dimensions twice gives the tensor back |
| OpsTranspose.TransposeRun | src/ops/mod.rs:1099-1107 | no inputs is `MissingInputs`; otherwise the transpose of the first input, of the same kind |
| Slicing.SliceAt | src/ops/mod.rs:948 | element `o` of a slice is the tensor's element at the range positions of `o` |
| Slicing.SliceFull | src/ops/mod.rs:941-954 | slicing every dimension to its full range gives the tensor back |
| Slicing.SliceTwice | src/ops/mod.rs:959-969 | a contiguous slice of a contiguous slice is one contiguous slice of the original |
| Slicing.ClipDim | src/ops/mod.rs:967 | the tensor with one dimension clipped has that dimension's size set to the clipped length |
| Slicing.ClipDimInPlace | src/ops/mod.rs:967 | clipping in place replaces the tensor by its clipped self |
| Slicing.ClipNext | src/ops/mod.rs:966-968 | clipping dimension k of a tensor whose first k dimensions are clipped extends the clipped prefix by one |
| Slicing.ClipAll | src/ops/mod.rs:966-968 | clipping every dimension in turn leaves the slice by all the ranges |
| OpsSlice.TargetAxis | src/ops/mod.rs:930-934 | the dimension a pair applies to: `axes[i]` as unsigned, or `i` without axes; a missing axes entry panics |
| OpsSlice.WholeRanges | src/ops/mod.rs:925-928 | the ranges start as every dimension's whole range |
| OpsSlice.RangesAfter | src/ops/mod.rs:929-936 | after the first n pairs, the ranges still number one per dimension |
| OpsSlice.RangesAfterOk | src/ops/mod.rs:929-936 | resolving succeeds exactly when every pair's target dimension exists |
| OpsSlice.RangesAfterLastWins | src/ops/mod.rs:929-936 | each dimension's range comes from the last pair that targets it, and dimensions no pair targets keep their whole range |
| OpsSlice.SliceRanges | src/ops/mod.rs:919-938 | the loop computes the ranges after all pairs, stopping at the shorter of `starts` and `ends` |
| OpsSlice.RangesFailLater | src/ops/mod.rs:929-936 | once a pair panics, later pairs keep the panic |
| OpsSlice.SliceElement | src/ops/mod.rs:948 | element `o` of the slice is the input element at `o` plus the starts |
| OpsSlice.Slice | src/ops/mod.rs:941-954 | a bad target panics; a range outside its dimension panics; otherwise the slice copy of the input by the ranges |
| OpsSlice.CheckSpans | src/ops/mod.rs:948 | passes exactly when every range lies inside its dimension |
| OpsSlice.SliceInPlace | src/ops/mod.rs:959-969 | succeeds exactly when `slice` would, leaving the same slice in place, and otherwise leaves the tensor unchanged |
| OpsSlice.SliceRun | src/ops/mod.rs:980-990 | the input-extraction errors in order; a success keeps the input's kind and is the slice |
| OpsSlice.SliceRunInPlace | src/ops/mod.rs:996-1003 | an int input or non-int starts, ends or axes fail (the unwrap panics); a success is the float input sliced in place |
| OpsSlice.SliceWhole | src/ops/mod.rs:941-954 | a slice whose every range is the whole dimension copies the input unchanged (the test at src/ops/mod.rs:1779-1794) |
| OpsSliceSteps.CeilDivCounts | src/ops/slice.rs:74 | the count of a stepped range is exactly the number of steps that stay short of the end |
| OpsSliceSteps.ResolveClamped | src/ops/slice.rs:74 | the resolved range fits its dimension and keeps the step; a unit-step range is a contiguous span inside the dimension |
| OpsSliceSteps.ResolveClampedForward | src/ops/slice.rs:74 | with a positive step, a position is selected exactly when it lies before the clamped end |
| OpsSliceSteps.ResolveClampedBackward | src/ops/slice.rs:74 | with a negative step, a position is selected exactly when it lies after the clamped end |
| OpsSliceSteps.ResolveInBounds | src/ops/slice.rs:74 | a unit-step range already inside the dimension is taken as it is (the test at src/ops/slice.rs:188-197) |
| OpsSliceSteps.ResolveUnbounded | src/ops/slice.rs:74 | a start at or below minus the size and an end at or above the size select the whole dimension (the test at src/ops/slice.rs:423-449) |
| OpsSliceSteps.ResolveNegativeBounds | src/ops/slice.rs:200-204 | start -9 and end -6 on ten elements select positions 1 to 3 |
| OpsSliceSteps.ResolveClampsEnd | src/ops/slice.rs:206-211 | start 5 and end 20 on ten elements select positions 5 to 9 |
| OpsSliceSteps.ResolveClampsStart | src/ops/slice.rs:213-218 | start -20 and end 5 on ten elements select positions 0 to 4 |
| OpsSliceSteps.ResolveStepTwo | src/ops/slice.rs:465-471 | start 0, end 5 and step 2 on five elements select positions 0, 2 and 4 |
| OpsSliceSteps.ResolveReverse | src/ops/slice.rs:473-494 | step -1 with start 5 or 100 and end -6 or -100 walks all five elements backwards |
| OpsSliceSteps.SliceVector | src/ops/slice.rs:59-60 | element j of a 1-D slice is the input element at the range's j-th position |
| OpsSliceSteps.SliceReverses | src/ops/slice.rs:473-478 | slicing [1, 2, 3, 4, 5] from 5 to -6 by -1 gives [5, 4, 3, 2, 1] |
| OpsSliceSteps.PairAxis | src/ops/slice.rs:37-41 | pair i applies to `axes[i]` resolved against the rank, or to i without axes |
| OpsSliceSteps.PairStep | src/ops/slice.rs:43 | the step of pair i is `steps[i]`, or 1 without steps |
| OpsSliceSteps.WholeRanges | src/ops/slice.rs:32-35 | the ranges start as every dimension's whole range with step 1 |
| OpsSliceSteps.RangesAfter | src/ops/slice.rs:36-45 | after the first n pairs, the ranges number one per dimension |
| OpsSliceSteps.SliceRangesSpec | src/ops/slice.rs:14-47 | a zero step fails first with "steps must be non-zero"; a success gives one range per dimension, none with step 0 |
| OpsSliceSteps.StepsKept | src/ops/slice.rs:36-45 | every range built has a nonzero step |
| OpsSliceSteps.RangesAfterLastWins | src/ops/slice.rs:36-45 | dimensions no pair targets keep their whole range; any other takes the start, end and step of the last pair that targets it |
| OpsSliceSteps.RangesFailLater | src/ops/slice.rs:36-45 | once a pair fails, later pairs keep the same error |
| OpsSliceSteps.NegativeAxisTargetsLast | src/ops/slice.rs:327-343 | axis -1 of a 3x3 tensor is dimension 1 |
| OpsSliceSteps.SliceRanges | src/ops/slice.rs:14-47 | the check loop and the update loop compute the specified ranges |
| OpsSliceSteps.Resolved | src/ops/slice.rs:72-75 | every range resolved and clamped against its dimension |
| OpsSliceSteps.Slice | src/ops/slice.rs:50-61 | fails as the range computation does; a success keeps the rank and never grows a dimension |
| OpsSliceSteps.SliceWhole | src/ops/slice.rs:301-325 | a slice with no pairs gives the input back |
| OpsSliceSteps.SliceUnbounded | src/ops/slice.rs:423-449 | starts at or below minus each size and ends at or above it give the input back |
| OpsSliceSteps.SliceInPlace | src/ops/slice.rs:65-77 | fails with the range computation's error and leaves the tensor unchanged; otherwise leaves in place exactly the slice the copying `slice` gives |
| OpsSliceSteps.ResolveAll | src/ops/slice.rs:72-75 | the loop resolves every range against its dimension; without steps all are contiguous and inside |
| OpsSliceSteps.Vector | src/ops/slice.rs:91 | `static_dims!(t, 1)` accepts exactly 1-D tensors and gives their elements |
| OpsSliceSteps.OptionalVector | src/ops/slice.rs:96-99 | an absent optional input is `None`; a present one must be an int vector |
| OpsSliceSteps.ReadArgs | src/ops/slice.rs:90-104 | reads starts, ends, axes and steps in that order, each with its error |
| OpsSliceSteps.SliceRun | src/ops/slice.rs:87-114 | no inputs is `MissingInputs`, then the argument errors; a success keeps the input's kind and is the slice |
| OpsSliceSteps.SliceRunInPlace | src/ops/slice.rs:121-165 | argument errors first; any step other than 1 falls back to the copying run on the input followed by the other inputs; otherwise the owned tensor is sliced in place, keeping its kind |
| OpsSliceSteps.ShiftedArgs | src/ops/slice.rs:145-146 | prepending the input shifts every argument by one place, so the fallback reads the same arguments |
| OpsSliceSteps.UnitStepsAgree | src/ops/slice.rs:142-151 | where every step is 1, the in-place slice gives what the copying slice gives |
| Lanes.OuterShape | src/ops/reduce.rs:16-27 | the lanes along `d` are counted by the shape with dimension `d` set to 1 |
| Lanes.LaneIndex | src/ops/reduce.rs:60-69 | element j of lane l is at the outer index of l with coordinate `d` set to j, inside the shape |
| Lanes.Lane | src/ops/reduce.rs:60-69 | lane l along `d` holds the shape's size along `d` elements, each at its lane index |
| Lanes.LaneOf | src/ops/reduce.rs:16-69 | every index lies in exactly one lane, at its own coordinate along `d` |
| Lanes.LastLaneIsRow | src/ops/reduce.rs:60-69 | along the last dimension, the lanes are the consecutive rows of the data |
| Lanes.FirstLaneIsColumn | src/ops/reduce.rs:60-69 | along the first dimension, lane l takes one element from each block of the data |
| Lanes.LaneCountProduct | src/ops/reduce.rs:16-69 | the lanes hold every element once: their count times their length is the element count |
| Lanes.VectorLane | src/ops/reduce.rs:16-69 | a 1-D tensor is its own only lane |
| ReduceOrder.Reverse | src/ops/reduce.rs:185-186 | `Ordering::reverse` swaps `Less` and `Greater` |
| ReduceOrder.PartialCmp | src/ops/reduce.rs:502 | NaN is unordered with everything; other values compare by value |
| ReduceOrder.IsNaN | src/ops/reduce.rs:496-498 | a value unordered with itself is exactly a NaN |
| ReduceOrder.IntKeyOrder | src/ops/reduce.rs:501-526 | on integers both NaN-aware comparisons are the ordinary order |
| ReduceOrder.MaxByIndex | src/ops/reduce.rs:134 | the `max_by` fold picks a position of the sequence |
| ReduceOrder.MinByIndex | src/ops/reduce.rs:542 | the `min_by` fold picks a position of the sequence |
| ReduceOrder.ArgMaxChoice | src/ops/reduce.rs:152-158 | `arg_max` picks the first NaN when there is one, and otherwise the last of the largest values |
| ReduceOrder.ArgMinChoice | src/ops/reduce.rs:180-189 | `arg_min` picks the first NaN when there is one, and otherwise the last of the smallest values |
| ReduceOrder.ReduceMaxValue | src/ops/reduce.rs:538-545 | `reduce_max` gives NaN exactly when there is one, and otherwise the largest value |
| ReduceOrder.MinByChoice | src/ops/reduce.rs:538-545 | `reduce_min` gives NaN exactly when there is one, and otherwise a smallest value |
| ReduceOrder.FirstBestIndex | src/ops/reduce.rs:134 | the intended fold, which replaces the best only by a strictly better element, picks a position of the sequence |
| ReduceOrder.FirstArgMaxChoice | src/ops/reduce.rs:148-158 | the intended ArgMax picks the first NaN, and otherwise the first of the largest values |
| ReduceOrder.FirstArgMinChoice | src/ops/reduce.rs:176-189 | the intended ArgMin picks the first NaN, and otherwise the first of the smallest values |
| ReduceOrder.ArgMaxTieDiffers | src/ops/reduce.rs:134 | on [1, 1] the `max_by` fold picks position 1, where the intended fold picks position 0 |
| ReduceOrder.MaxByAgreesWithoutTies | src/ops/reduce.rs:134 | the two folds agree whenever the best value occurs once |
| OpsReduce.ResolveAxes | src/ops/reduce.rs:302 | resolving a list of axes succeeds exactly when every axis resolves, gives one axis per entry, and fails with "Axis is invalid" |
| OpsReduce.ReduceAxes | src/ops/reduce.rs:301-305 | the axes are sorted and below the rank; no axes or an empty list means every axis; the only error is an invalid given axis |
| OpsReduce.ReducedShape | src/ops/reduce.rs:325-336 | the output shape before squeezing keeps the rank, with size 1 on each reduced axis and the input's size elsewhere |
| OpsReduce.Group | src/ops/reduce.rs:363-385 | group `l` holds the elements whose off-axis coordinates are those of output position `l`, in row-major order of the reduced coordinates |
| OpsReduce.ReducedData | src/ops/reduce.rs:337-388 | one reduced value per output position, each the reducer applied to its group |
| OpsReduce.ReduceSpec | src/ops/reduce.rs:295-399 | fails exactly on an invalid axis, a non-scalar empty input (the empty-tensor message), or a non-empty vector given two or more axes (the subtract-with-overflow panic of the inner-dims test); success is well formed, never adds axes, and keeps the rank with `keep_dims` |
| OpsReduce.InnerFrom | src/ops/reduce.rs:319-323 | the short-circuiting `all` from position `i`: true exactly when every remaining axis is `ndim - 1 - i`, and the `usize` subtraction panic exactly when the axes outnumber the dimensions and the first `ndim` pass |
| OpsReduce.InnerDims | src/ops/reduce.rs:317-323 | the number of axes exactly when the sorted axes are the innermost ones in reverse position order, and the subtract-with-overflow panic exactly when the axes outnumber the dimensions and the first `ndim` of them pass |
| OpsReduce.InnerDimsPanics | src/ops/reduce.rs:317-323 | for sorted in-range axes the test panics exactly on one dimension and two or more axes |
| OpsReduce.ReduceAxesLength | src/ops/reduce.rs:301-305 | `reduce` sorts as many axes as were given, or every dimension when none or an empty list is given |
| OpsReduce.Reduce | src/ops/reduce.rs:295-399 | `reduce`, with its scalar, empty, contiguous-chunk, single-axis and general paths and the final squeeze, returns ReduceSpec |
| OpsReduce.ReducedAxesSqueeze | src/ops/reduce.rs:392-396 | squeezing the reduced axes, now of size 1, never fails (the `expect` cannot fire) and drops exactly those axes |
| OpsReduce.ReducedValues | src/ops/reduce.rs:339-388 | each of the three paths yields exactly one reduced value per group, in output order |
| OpsReduce.GroupPath | src/ops/reduce.rs:363-385 | the general path over every outer index reduces every group in row-major order |
| OpsReduce.LanePath | src/ops/reduce.rs:356-361 | the single-axis path yields one value per lane along the axis, each the reducer of that lane |
| OpsReduce.ChunkPath | src/ops/reduce.rs:340-354 | the contiguous-chunk path over consecutive chunks of the data yields exactly the reduced data |
| OpsReduce.Chunks | src/ops/reduce.rs:348-353 | cutting whole chunks of `w` elements yields one reduced value per chunk |
| OpsReduce.InnerDimsOnlyLast | src/ops/reduce.rs:319-323 | once the axes are sorted, only the lone last axis passes the inner-dims test |
| OpsReduce.GroupIsLane | src/ops/reduce.rs:356-361 | reducing a single axis groups exactly the lanes along it, in lane order |
| OpsReduce.GroupsPartition | src/ops/reduce.rs:363-385 | the groups partition the input: every input index is element `k` of group `l` for its coordinates off and on the reduced axes |
| OpsReduce.GroupIndexInjective | src/ops/reduce.rs:363-385 | distinct (group, position) pairs name distinct input elements, so no element is reduced twice |
| OpsReduce.ReduceAllAxes | src/ops/reduce.rs:301-304 | no axes or an empty list reduces the whole data to one value, a scalar or a tensor of ones with `keep_dims` |
| OpsReduce.ReduceOneAxis | src/ops/reduce.rs:356-361 | reducing one axis applies the reducer to every lane along it, and the axis becomes 1 or is dropped |
| OpsReduce.SumF32 | src/ops/reduce.rs:636-641 | the float sum is NaN exactly when an element is NaN, and otherwise the total of the values |
| OpsReduce.SumIsTotal | src/ops/reduce.rs:636-641 | summing from 0 over the exact values gives the total |
| OpsReduce.SumInRange | src/ops/reduce.rs:636-641 | when no partial sum overflows, the total is in the `i32` range |
| OpsReduce.SumI32 | src/ops/reduce.rs:636-641 | the `i32` sum is the exact total whenever no partial sum overflows or the total is in range |
| OpsReduce.MulF32 | src/ops/reduce.rs:608 | `f32` multiplication yields NaN exactly when an operand is NaN, and otherwise the exact product |
| OpsReduce.ProdF32 | src/ops/reduce.rs:605-610 | the float product is NaN exactly when an element is NaN, and otherwise the product of the values |
| OpsReduce.ProdIsProduct | src/ops/reduce.rs:605-610 | multiplying from 1 over the exact values gives the product |
| OpsReduce.ProdInRange | src/ops/reduce.rs:605-610 | when no partial product overflows, the product is in the `i32` range |
| OpsReduce.ProdI32 | src/ops/reduce.rs:605-610 | the `i32` product is exact whenever no partial product overflows or the product is in range |
| OpsReduce.MaxOfF32 | src/ops/reduce.rs:539-544 | `max_by(cmp_nan_greater)` of a non-empty group is NaN exactly when an element is NaN, and otherwise an element no smaller than any other |
| OpsReduce.MinOfF32 | src/ops/reduce.rs:539-544 | `min_by(cmp_nan_less)` of a non-empty group is NaN exactly when an element is NaN, and otherwise an element no larger than any other |
| OpsReduce.Keys | src/ops/reduce.rs:537-545 | integers seen by the comparators are never NaN and keep their values |
| OpsReduce.MaxOfI32 | src/ops/reduce.rs:539-544 | the `i32` maximum of a non-empty group is one of its elements and no element exceeds it |
| OpsReduce.MinOfI32 | src/ops/reduce.rs:539-544 | the `i32` minimum of a non-empty group is one of its elements and no element is below it |
| OpsReduce.MeanF32 | src/ops/reduce.rs:406-412 | the mean is NaN exactly for an empty group (0 / 0) or a NaN element, and otherwise the total divided by the count |
| OpsReduce.Squares | src/ops/reduce.rs:447 | each element is replaced by its product with itself |
| OpsReduce.SquaresNaN | src/ops/reduce.rs:447 | the squares contain a NaN exactly when the elements do |
| OpsReduce.SquaresNonNegative | src/ops/reduce.rs:447 | the sum of squares is never negative, so `sqrt` is never taken of a negative value |
| OpsReduce.L2F32 | src/ops/reduce.rs:444-450 | the L2 norm is NaN exactly when an element is NaN, and otherwise the square root of the non-negative sum of squares |
| OpsReduce.GroupsNonEmpty | src/ops/reduce.rs:311-315 | an input with elements forms no empty group, so the min/max `expect` never fires |
| OpsReduce.MeanWithin | src/ops/reduce.rs:406-412 | bounds on every element of a NaN-free group bound its mean |
| OpsReduce.MeanBetween | src/ops/reduce.rs:406-412 | the mean of a non-empty NaN-free group lies between its minimum and its maximum |
| OpsReduce.GroupElement | src/ops/reduce.rs:363-385 | every input element sits in the group and position GroupsPartition assigns it |
| OpsReduce.ReduceMinMaxBounds | src/ops/reduce.rs:528-548 | in a NaN-free input every element lies between the ReduceMin and ReduceMax outputs it is reduced into; a NaN element makes both outputs NaN |
| OpsReduce.GroupNaNFree | src/ops/reduce.rs:363-385 | the groups of a NaN-free input are NaN-free |
| OpsReduce.ReduceVector | src/ops/reduce.rs:982-989 | reducing a vector along its only axis gives the scalar of the reducer over the whole vector |
| OpsReduce.ReduceRunSpec | src/ops/reduce.rs:476-494 | no inputs is MissingInputs; ReduceMean and ReduceL2 refuse `i32`; other kinds keep their kind; an `i32` sum or product overflow is a panic |
| OpsReduce.ReduceRun | src/ops/reduce.rs:476-494 | the operators' `run`, through the imperative `reduce`, returns ReduceRunSpec |
| OpsReduce.IntReduceExact | src/ops/reduce.rs:600-643 | every element of a successful `i32` ReduceSum is the exact total of its group, and of ReduceProd the exact product |
| OpsReduce.IncreasingMinMax | src/ops/reduce.rs:1017-1030 | along its only axis, five increasing numbers reduce to the first under ReduceMin and the last under ReduceMax |
| OpsReduce.MinMaxVector | src/ops/reduce.rs:1017-1030 | ReduceMin and ReduceMax of `[1.5, 2.5, 3.5, 4.5, 5.5]` are 1.5 and 5.5 |
| OpsReduce.MinMaxPropagateNaN | src/ops/reduce.rs:1039-1053 | a NaN among the elements makes both ReduceMin and ReduceMax NaN |
| OpsReduce.MeanVector | src/ops/reduce.rs:982-989 | ReduceMean of `[0, 10]` is 5 |
| OpsReduce.SumOverflowsAtMax | src/ops/reduce.rs:636-641 | summing `[MaxI32, 1]` overflows in its second step |
| OpsReduce.SumProdInts | src/ops/reduce.rs:1056-1085 | ReduceSum and ReduceProd of `[1, 2, 3, 4, 5]` are 15 and 120 |
| OpsReduce.RepeatedAxisPanics | src/ops/reduce.rs:317-323 | a three-element vector reduced over axes `[0, -1]` hits the subtract-with-overflow panic |
| OpsArgMax.BestIndex | src/ops/reduce.rs:134 | the chosen position lies in the lane, for either tie rule |
| OpsArgMax.SelectedIndices | src/ops/reduce.rs:132-137 | one index per lane along the axis, in lane order, each the lane's best position |
| OpsArgMax.SelectMaxIndex | src/ops/reduce.rs:111-147 | the pass over the lanes and the squeeze compute the specified selection |
| OpsArgMax.ReducedAxisSqueezes | src/ops/reduce.rs:141-144 | squeezing the reduced axis, now of size 1, succeeds and gives the unkept shape |
| OpsArgMax.LaneIndices | src/ops/reduce.rs:132-137 | the loop over the lanes, skipped for an empty input, gives the selection |
| OpsArgMax.EachLane | src/ops/reduce.rs:133-136 | the chooser applied to every lane, in lane order |
| OpsArgMax.AllLanes | src/ops/reduce.rs:132-137 | choosing in every lane, lane by lane, gives the selection |
| OpsArgMax.SelectedShapeIsReduced | src/ops/reduce.rs:124-146 | the result is well formed, has the input's shape with the reduced axis set to 1 or removed, and its data does not depend on `keep_dims` |
| OpsArgMax.ArgMaxSelects | src/ops/reduce.rs:152-158 | every element of ArgMax's output is the source's choice in its lane: the first NaN, else the last of the largest values |
| OpsArgMax.ArgMinSelects | src/ops/reduce.rs:180-189 | every element of ArgMin's output is the source's choice in its lane: the first NaN, else the last of the smallest values |
| OpsArgMax.FirstArgMaxSelects | src/ops/reduce.rs:148-158 | with the intended fold, every element is ONNX ArgMax of its lane: the first NaN, else the first of the largest values |
| OpsArgMax.FirstArgMinSelects | src/ops/reduce.rs:176-189 | with the intended fold, every element is ONNX ArgMin of its lane |
| OpsArgMax.SelectMaxIndexErrors | src/ops/reduce.rs:117-122 | the selection fails exactly for an invalid axis or an empty reduced axis, with the source's messages |
| OpsArgMax.ArgMaxRun | src/ops/reduce.rs:171-174 | the float-input error, or the source's ArgMax of input 0 along the axis |
| OpsArgMax.ArgMinRun | src/ops/reduce.rs:202-205 | the float-input error, or the source's ArgMin of input 0 along the axis |
| OpsArgMax.VectorSelectedShape | src/ops/reduce.rs:124-146 | selecting along a vector's only axis leaves a scalar, or a 1-element vector when kept |
| OpsArgMax.VectorSelect | src/ops/reduce.rs:111-147 | on a non-empty vector the selection is one index, a scalar or a 1-element vector when kept |
| OpsArgMax.VectorArgMax | src/ops/reduce.rs:786-795 | ArgMax of [0.1, 0.5, 0.2, 0.9, 0.01, 0.6] is 3, with and without kept dims, and ArgMin is 4 (also src/ops/reduce.rs:838-842) |
| OpsArgMax.VectorArgMaxNaN | src/ops/reduce.rs:849-855 | a NaN at position 2 wins both ArgMax and ArgMin |
| OpsArgMax.ArgMaxTieAsWritten | src/ops/reduce.rs:134 | with the source's `max_by`, ArgMax of [1, 1] is 1 |
| OpsArgMax.EmptyArgMax | src/ops/reduce.rs:818-832 | an empty reduced axis is the "Cannot select index from empty sequence" error; an empty other axis gives an empty [0, 5] result |
| OpsCumSum.RunningSums | src/ops/reduce.rs:215-220 | element `j` of a lane's running sums is the sum of the lane's first `j + 1` elements, and there are as many sums as elements |
| OpsCumSum.CumSumAsWrittenSpec | src/ops/reduce.rs:208-226 | an invalid axis is the "Axis is invalid" error and the only error; otherwise the output keeps the input's shape and is well formed |
| OpsCumSum.CumSumAsWritten | src/ops/reduce.rs:208-226 | the loop, lane after lane with a running sum appended element by element, builds exactly the data of CumSumAsWrittenSpec |
| OpsCumSum.LaneRunningSums | src/ops/reduce.rs:216-220 | the inner loop over one lane yields that lane's running sums |
| OpsCumSum.CumSum | src/ops/reduce.rs:208-226 | the intended operator: same error and shape as the loop, each output element the sum along the axis up to it |
| OpsCumSum.CumSumAt | src/ops/reduce.rs:208-226 | CumSum's element at every valid index is the sum of the input elements along the axis up to and including that index |
| OpsCumSum.CumSumLanes | src/ops/reduce.rs:215-220 | every lane of CumSum's output is the running sums of the same lane of the input |
| OpsCumSum.LaneSumsAreLanes | src/ops/reduce.rs:215-221 | the loop's data equals CumSum's output read lane by lane |
| OpsCumSum.CumSumAsWrittenLastAxis | src/ops/reduce.rs:865-867 | along the last axis (as `-1` or as its index) the loop as written agrees with CumSum |
| OpsCumSum.CheckedI32 | src/ops/reduce.rs:217-218 | `i32` running sums succeed exactly when every sum is in the `i32` range, and are then unchanged; otherwise the add-overflow panic |
| OpsCumSum.IntCumSum | src/ops/reduce.rs:208-226 | on `i32`, an invalid axis is the axis error; otherwise the exact running sums of the loop, or the overflow panic when one leaves the range |
| OpsCumSum.AddF32 | src/ops/reduce.rs:218 | `f32` addition yields NaN exactly when an operand is NaN and otherwise the exact sum |
| OpsCumSum.RowsAsWritten | src/ops/reduce.rs:869-871 | along axis 0, `[[0,1,2,3],[0,1,2,3]]` gives `[0,0,1,2,2,4,3,6]` |
| OpsCumSum.RowsIntCumSum | src/ops/reduce.rs:869-871 | the `i32` operator on that tensor along axis 0 returns shape `[2, 4]` with `[0,0,1,2,2,4,3,6]` |
| OpsCumSum.RowsCumSumSecond | src/ops/reduce.rs:869-871 | CumSum's element at `[0, 1]` is 1, where the loop as written stores 0 |
| OpsCumSum.CumSumOverflows | src/ops/reduce.rs:217-218 | summing `[MaxI32, 1]` is the add-overflow panic |
| OpsCumSum.CumSumRunSpec | src/ops/reduce.rs:236-243 | no inputs is MissingInputs; success needs an `i32` scalar axis in input 1, keeps the input's kind, and is IntCumSum or the float loop |
| OpsCumSum.CumSumRun | src/ops/reduce.rs:236-243 | the operator, run through the loop, returns CumSumRunSpec |
| OpsCumSum.CumSumVector | src/ops/reduce.rs:860-863 | the running sums of `[0,1,2,3,4,5]` are `[0,1,3,6,10,15]` |
| OpsNonZero.PositionsSound | src/ops/reduce.rs:254-256 | every position the filter keeps holds an element other than the default |
| OpsNonZero.PositionsComplete | src/ops/reduce.rs:254-256 | every element other than the default has its position among those kept |
| OpsNonZero.PositionsIncreasing | src/ops/reduce.rs:254-256 | the kept positions are strictly increasing, so each element appears once, in iteration order |
| OpsNonZero.Column | src/ops/reduce.rs:254-262 | the `c`-th kept index is in bounds and its row-major offset is the `c`-th kept position |
| OpsNonZero.NonZero | src/ops/reduce.rs:247-268 | failure is only the `dim_idx <= i32::MAX` assertion; the output is a well-formed `[rank, count]` tensor whose count is the number of non-default elements |
| OpsNonZero.NonZeroTable | src/ops/reduce.rs:264-267 | after the transpose, row `d` of the output holds coordinate `d` of every kept index, in order |
| OpsNonZero.NonZeroSound | src/ops/reduce.rs:247-268 | every output column indexes an element other than the default |
| OpsNonZero.NonZeroComplete | src/ops/reduce.rs:247-268 | every in-bounds index of a non-default element is one of the output columns |
| OpsNonZero.NonZeroOrdered | src/ops/reduce.rs:247-268 | the columns come in strictly increasing row-major order |
| OpsNonZero.NonZeroRun | src/ops/reduce.rs:278-284 | no inputs is MissingInputs; an `i32` or `f32` input 0 is NonZero with default 0 |
| OpsNonZero.NonZeroScalar | src/ops/reduce.rs:900-908 | a non-zero scalar gives shape `[0, 1]`, a zero scalar `[0, 0]` |
| OpsNonZero.PositionsSnoc | src/ops/reduce.rs:254-256 | one more element adds its own position exactly when it is not the default |
| OpsNonZero.NonZeroMatrix | src/ops/reduce.rs:880-897 | `[[0,1],[1,1]]` gives a `[2, 3]` tensor with columns `[0,1]`, `[1,0]`, `[1,1]` |
| OpsTopK.CmpNat | src/ops/reduce.rs:704 | `usize::cmp` answers Less exactly when the first is smaller and Greater exactly when it is larger |
| OpsTopK.KeyCmp | src/ops/reduce.rs:501-512 | `cmp_nan_greater` with two NaNs equal: Less, Greater and Equal exactly when NaN-greatest order says so |
| OpsTopK.BeforeMeaning | src/ops/reduce.rs:696-713 | an element comes first when its value is greater (with `largest`) or smaller (without), NaN counting as greatest, and among equal values when its index is smaller |
| OpsTopK.TopKCmpAntisymmetric | src/ops/reduce.rs:696-713 | the corrected comparator is antisymmetric and says Equal only for the same value at the same index |
| OpsTopK.BeforeTotal | src/ops/reduce.rs:696-713 | elements at different indices are always ordered one way or the other |
| OpsTopK.BeforeTransitive | src/ops/reduce.rs:696-713 | the comparator is transitive |
| OpsTopK.TopKCmpAsWrittenNaN | src/ops/reduce.rs:701-711 | as written, two NaNs at indices 0 and 1 compare Less both ways with `largest`; the corrected comparator orders them by index |
| OpsTopK.TopKCmpAsWrittenAgrees | src/ops/reduce.rs:701-711 | away from a pair of NaNs, the comparator as written and the corrected one agree |
| OpsTopK.Entries | src/ops/reduce.rs:721 | `tmp` pairs every lane element with its distinct position in the lane |
| OpsTopK.Insert | src/ops/reduce.rs:726 | insertion adds exactly the one element to the multiset |
| OpsTopK.InsertSorted | src/ops/reduce.rs:726 | inserting into a sorted sequence keeps it sorted by the comparator |
| OpsTopK.Sort | src/ops/reduce.rs:726 | sorting a lane's entries is a permutation of them |
| OpsTopK.SortSorted | src/ops/reduce.rs:726 | the sorted entries are in comparator order |
| OpsTopK.TopKOf | src/ops/reduce.rs:720-727 | the selection of one lane holds exactly `k` entries |
| OpsTopK.TopKSelects | src/ops/reduce.rs:720-727 | the selection is `k` distinct lane elements, each the lane's element at its index, in comparator order, each coming before every element left out |
| OpsTopK.TopKSortedFromLane | src/ops/reduce.rs:720-727 | the top `k` are sorted, have distinct positions, and are entries of the lane |
| OpsTopK.TopKBeatsRest | src/ops/reduce.rs:720-727 | every one of the top `k` comes before every lane entry left out of them |
| OpsTopK.LargestPutsNaNFirst | src/ops/reduce.rs:697-700 | with `largest`, a lane holding a NaN puts a NaN first |
| OpsTopK.OutShape | src/ops/reduce.rs:670-675 | the output shape is the input's with `k` along the axis, and has the same lanes |
| OpsTopK.TopKSpec | src/ops/reduce.rs:662-736 | fails exactly on an invalid axis ("Axis is invalid") or a non-zero `k` above the axis size ("k > dimension size"); success gives two well-formed outputs of the input's shape with `k` along the axis |
| OpsTopK.TopKLanes | src/ops/reduce.rs:715-733 | output lane `l` holds lane `l`'s selection: the values, and their indices cast to `i32` |
| OpsTopK.FillLanes | src/ops/reduce.rs:715-733 | the lane loop fills both output buffers with exactly the specified values and indices |
| OpsTopK.FillLane | src/ops/reduce.rs:720-732 | one pass writes the next lane's selection into both outputs and leaves the earlier lanes as written |
| OpsTopK.TopK | src/ops/reduce.rs:662-736 | `topk` with zeroed outputs, the early `k == 0` return and the lane loop returns TopKSpec |
| OpsTopK.KInput | src/ops/reduce.rs:752-758 | `k` is input 1 as an `i32` scalar; a missing or mistyped input is its error, and a negative `k` is "k must be positive" |
| OpsTopK.TopKRunSpec | src/ops/reduce.rs:750-772 | no inputs is MissingInputs; a bad `k` is its error; success gives the values, of the input's kind, and the `i32` indices of TopKSpec |
| OpsTopK.TopKRun | src/ops/reduce.rs:750-772 | the operator, through the imperative `topk`, returns TopKRunSpec |
| OpsTopK.TopTwoWithNaN | src/ops/reduce.rs:1157-1162 | the two largest of `[0, NaN, 2]` are NaN at index 1 and 2 at index 2 |
| HwcOps.Sub | src/ops.rs:22-23 | `usize` subtraction succeeds exactly when the subtrahend is not larger, and then adds back to the minuend; otherwise the subtract-overflow panic |
| HwcOps.Conv2dShape | src/ops.rs:10-25 | a channel mismatch panics first; otherwise the shape is `[in_h - k_h + 1 + 2 pad_h, in_w - k_w + 1 + 2 pad_w, out_c]`, and a kernel larger than the unpadded input overflows |
| HwcOps.Conv2dShapePadded | src/ops.rs:21-25 | the intended shape: one output position per placement of the kernel inside the padded input |
| HwcOps.Conv2dShapeAgrees | src/ops.rs:21-25 | wherever `conv_2d` computes a shape, it is the intended one |
| HwcOps.PaddedKernelOverflows | src/ops.rs:22-23 | a 3x3 kernel with one pixel of padding over a 1x1 image overflows, where the intended shape is `[1, 1, 1]` |
| HwcOps.SamePadding | src/ops.rs:21-25 | an odd kernel of size `2p + 1` with padding `p` keeps the image size |
| HwcOps.ConvTranspose2dShape | src/ops.rs:61-75 | a channel mismatch panics; an empty input overflows in `in - 1`; otherwise the shape has `out_c` channels |
| HwcOps.ConvTransposeWritesInside | src/ops.rs:77-93 | every write at `(y * stride + ky, x * stride + kx)` lands inside the output, and the last pixel with the last kernel row and column writes the last output row and column |
| HwcOps.ConvUndoesTranspose | src/ops.rs:10-75 | with stride 1, an unpadded convolution by the mirrored kernel restores the shape a transposed convolution changed |
| HwcOps.MaxPool2dShape | src/ops.rs:98-102 | a zero kernel divides by zero; otherwise the shape keeps the channels and counts whole windows only |
| HwcOps.WindowInBounds | src/ops.rs:107-111 | every window element of an output cell lies inside the input |
| HwcOps.MaxF32 | src/ops.rs:111 | `f32::max` returns one of its operands, NaN only when both are NaN, and no less than a numeric operand |
| HwcOps.MaxPoolCellIsMax | src/ops.rs:103-115 | the intended cell is an element of its window, no less than any number in it, and NaN only when the whole window is NaN |
| HwcOps.MaxPoolCellAsWrittenIsMax | src/ops.rs:106-114 | the computed cell is the maximum over the window together with the stray start element at `(oy, ox)` |
| HwcOps.MaxPoolReadsOutsideWindowAt | src/ops.rs:106 | with `k = 2`, a 9 at `(1, 1)` shows up in output cell `(1, 1)` whose window holds only zeros |
| HwcOps.MaxPoolReadsOutsideWindow | src/ops.rs:106 | the same on a concrete 4x4 single-channel image |
| HwcOps.PoolWindow | src/ops.rs:106-113 | the two window loops compute the as-written cell |
| HwcOps.MaxPool2d | src/ops.rs:98-119 | a zero kernel panics; otherwise a fresh output of whole windows whose every cell is the as-written cell |
| HwcOps.Pad2dShape | src/ops.rs:183-191 | padding `[left, top, right, bottom]` adds `top + bottom` rows and `left + right` columns and keeps the channels |
| HwcOps.Pad2dIsPad | src/ops.rs:182-203 | `pad_2d` is the general Pad operator with zero padding starting at `top` and `left` and none on channels |
| HwcOps.Pad2dKeepsInput | src/ops.rs:194-198 | every input element reappears shifted down by `top` and right by `left` |
| HwcOps.Pad2d | src/ops.rs:182-203 | a fresh buffer of the padded shape holding the input at the offset and zero everywhere else |
| HwcOps.ConcatChecks | src/ops.rs:133-143 | rank mismatch, then `dim` out of range, then a differing other dimension panic, in that order; the checks pass exactly when none applies |
| HwcOps.ConcatAsWritten | src/ops.rs:129-177 | the checks' panics; an input empty along `dim` gives the other one; otherwise the summed shape holding alternating `stride(dim)` chunks, then zeros |
| HwcOps.CopyChunk | src/ops.rs:164-173 | copying `n` elements writes exactly that range of the source and leaves the rest of the buffer as it was |
| HwcOps.CopyRound | src/ops.rs:163-174 | one pass copies a chunk of `a`, then one of `b`, and changes nothing past them |
| HwcOps.CheckConcat | src/ops.rs:133-143 | the check loops return ConcatChecks |
| HwcOps.CopyAlternating | src/ops.rs:154-174 | the copy loop yields the alternating chunks followed by the zeros it never overwrote |
| HwcOps.Concat | src/ops.rs:129-177 | `concat` with its checks, early copies and copy loop returns ConcatAsWritten |
| HwcOps.ConcatCorrected | src/ops.rs:129-177 | the intended concatenation: same checks, errors, shape and early copies, and the whole slice of `a` before that of `b` for each outer index |
| HwcOps.AlternateIsInterleave | src/ops.rs:163-174 | with equal inputs of whole chunks, the copy loop is the one-chunk-each interleaving of the general Concat |
| HwcOps.ConcatAgreesOnUnitDims | src/ops.rs:129-177 | when both inputs have size 1 along `dim`, `concat` computes the intended result |
| HwcOps.ConcatInterleavesAt | src/ops.rs:163-174 | joining `[p, q]` and `[u, v]` along their only axis gives `[p, u, q, v]`, where `[p, q, u, v]` is intended |
| HwcOps.ConcatInterleaves | src/ops.rs:163-174 | `[1, 2]` and `[3, 4]` give `[1, 3, 2, 4]` instead of `[1, 2, 3, 4]` |
| Geometry.Point.Neighbors | src/geometry.rs:41-52 | a point has exactly eight neighbours |
| Geometry.NeighborsAreAdjacent | src/geometry.rs:41-52 | the neighbours are exactly the eight pixels adjacent to the point, each listed once |
| Geometry.NeighborsRing | src/geometry.rs:41-52 | going round the clockwise list from the pixel above, each neighbour is one step up, down, left or right of the one before |
| Geometry.SortPair | src/geometry.rs:168-174 | `sort_pair` returns the pair or its swap, smaller value first |
| Geometry.Clamp | src/geometry.rs:182 | `clamp` returns a value within the bounds, and the value itself when it already lies within them |
| Geometry.OverlapIsIntersection | src/geometry.rs:178-183 | `overlap` is the length of the intersection of the two segments, whatever the order of their ends |
| Geometry.OverlapSymmetric | src/geometry.rs:178-183 | `overlap` is never negative and does not change when the segments or the ends of either are swapped |
| Geometry.OverlapExamples | src/geometry.rs:1642-1689 | disjoint segments overlap by 0, `(0,10)` and `(5,15)` by 5, a contained `(2,8)` by 6 and `(0,5)` by 5, in both argument orders |
| Geometry.LineOverlaps | src/geometry.rs:235-245 | a line's vertical and horizontal overlap with another is the length of the intersection of their extents, the same whichever line is asked or which way round a line is given |
| Geometry.TlbrRoundTrip | src/geometry.rs:260-374 | `from_tlbr` and `tlbr` are inverse, `from_hw` gives the asked-for size at the origin, and `adjust_tlbr` adds its offsets to the sides |
| Geometry.EdgesJoinCorners | src/geometry.rs:307-356 | the left and right edges are vertical and the top and bottom ones horizontal, of the rect's height and width, joined at the corners; empty means no positive width or height |
| Geometry.ContainsIff | src/geometry.rs:396-407 | `contains` holds exactly when the other rect's sides lie within this one's |
| Geometry.ContainsPoints | src/geometry.rs:405-407 | a rect containing another contains each of its pixels |
| Geometry.UnionIsLeast | src/geometry.rs:396-402 | the union contains both rects, is contained in every rect that contains both, and equals a rect exactly when that rect contains the other |
| Geometry.ClampIsIntersection | src/geometry.rs:378-387 | the clamped rect lies in the boundary, holds exactly the pixels both share, is unchanged for a contained rect, and clamping twice changes nothing |
| Geometry.ClampExamples | src/geometry.rs:1713-1736 | an oversized rect clamps to the boundary and a contained one is unchanged |
| Geometry.IntersectsIff | src/geometry.rs:390-393 | for ordered rects, `intersects` holds exactly when some pixel lies in both, and exactly when the clamp is not empty |
| Geometry.CenterAsWritten | src/geometry.rs:312-316 | for non-negative coordinate sums, the center is the midpoint rounded down |
| Geometry.TruncHalf | src/geometry.rs:313-314 | Rust's `/ 2` rounds towards zero: half for non-negative values, minus half the magnitude for negative ones |
| Geometry.Center | src/geometry.rs:312-316 | the corrected center lies in every non-empty rect and agrees with `center` where the coordinate sums are non-negative |
| Geometry.CenterOutsideRect | src/geometry.rs:312-316 | the one-pixel rect at `(-3, -3)` has its written center at `(-2, -2)`, outside it; the corrected center is `(-3, -3)` |
| Geometry.BoundsIsLeast | src/geometry.rs:794-810 | a tight bounding box is contained in every rect containing the points |
| Geometry.BoundsUnique | src/geometry.rs:794-810 | two tight bounding boxes of the same points are equal |
| Geometry.BoundingBox | src/geometry.rs:794-810 | succeeds exactly on a non-empty list (the assertion otherwise), and returns the tight box of the points |
| Geometry.CornersBoundRect | src/geometry.rs:1289-1293 | the tight box of a non-empty rect's four corner pixels is that rect |
| Drawing.FillRect | src/geometry.rs:864-870 | every cell inside the rect gets the value and every other cell keeps its old value |
| Drawing.WidthAsI32 | src/geometry.rs:817 | `width as i32` keeps a width up to `i32::MAX` and turns a larger `u32` negative |
| Drawing.StrokeParts | src/geometry.rs:819-860 | the stroke is made of exactly four rects: left edge, top edge without its ends, right edge, bottom edge without its ends |
| Drawing.StrokeRect | src/geometry.rs:816-861 | the cells of the four edge rects get the value and every other cell keeps its old value |
| Drawing.StrokeIsFrame | src/geometry.rs:812-861 | for a width that fits the rect, the stroke is exactly the cells of the rect outside the rect shrunk by the width on every side |
| Drawing.StrokeFits | src/geometry.rs:816-861 | a stroke of a rect inside the grid, of a width that fits, writes only cells of the grid |
| Drawing.ClampToBounds | src/geometry.rs:874-879 | each coordinate is clamped into `[0, size - 1]` (0 for a size of 0), lands in a non-empty image, and a point already inside is unchanged |
| Drawing.LinePointsBetween | src/geometry.rs:892-945 | `draw_line` writes `max(dx, dy)` cells, the first at the start, all between the two end points, and never the end point itself |
| Drawing.LineInImage | src/geometry.rs:886-890 | in a non-empty image every cell of a clamped line is a cell of the image |
| Drawing.LineConnected | src/geometry.rs:892-945 | a drawn line has no gaps: each cell is one of the eight neighbours of the one before |
| Drawing.StraightLineCells | src/geometry.rs:901-914 | an axis-aligned segment covers exactly its bounding box without its end point |
| Drawing.DrawStraight | src/geometry.rs:901-914 | the vertical or horizontal loop writes its `n` cells and leaves every other cell alone |
| Drawing.DrawShallow | src/geometry.rs:915-929 | the Bresenham loop along x writes exactly the walk's cells and leaves every other cell alone |
| Drawing.DrawSteep | src/geometry.rs:930-944 | the Bresenham loop along y writes exactly the walk's cells and leaves every other cell alone |
| Drawing.DrawLine | src/geometry.rs:882-946 | the cells of the clamped line get the value and nothing else changes; it panics exactly when an image with no rows or columns would be written |
| Drawing.Edge | src/geometry.rs:954-961 | edge `i` runs from vertex `i` to the next one, the last vertex joining the first |
| Drawing.EdgesGrow | src/geometry.rs:954-961 | taking in one more edge adds exactly that edge's cells |
| Drawing.DrawPolygon | src/geometry.rs:949-962 | every outline cell gets the value and nothing else changes; an empty polygon draws nothing; it panics exactly when one of its lines does |
| Drawing.SquareOutline | src/geometry.rs:1349-1358 | a square filling an image of `s + 1` rows and columns marks exactly the image's border cells |
| PolygonsBuffer.Slices | src/geometry.rs:472-478 | each span reads exactly its slice of the shared point buffer, in span order |
| PolygonsBuffer.SlicesExtend | src/geometry.rs:432-436 | growing the point buffer at its end leaves the slices of the existing spans unchanged |
| PolygonsBuffer.Polygons.constructor | src/geometry.rs:424-429 | a new collection is empty |
| PolygonsBuffer.Polygons.Push | src/geometry.rs:432-436 | pushing appends the points as one new polygon at the end and keeps the others |
| PolygonsBuffer.Polygons.Len | src/geometry.rs:439-441 | the length is the number of polygons |
| PolygonsBuffer.Polygons.IsEmpty | src/geometry.rs:444-446 | the collection is empty exactly when it holds no polygon |
| PolygonsBuffer.Polygons.Iter | src/geometry.rs:449-454 | a fresh iterator that will hand out exactly the collection's polygons, in order |
| PolygonsBuffer.PolygonsIter.Next | src/geometry.rs:472-478 | the next polygon is the first remaining one, which is then removed; once none remain, `None` |
| PolygonsBuffer.PolygonsIter.SizeHint | src/geometry.rs:480-482 | both bounds of the size hint are the number of polygons left |
| PolygonsBuffer.PushThenIterate | src/geometry.rs:424-482 | pushing two polygons and iterating gives them back in push order, then `None`, with a length of 2 |
| NeighborRing.NextNeighbor | src/geometry.rs:505-514 | the next index going round, clockwise or counter-clockwise, is again one of the eight neighbour indices |
| NeighborRing.Around | src/geometry.rs:528-537 | `k` steps round from a neighbour index is a neighbour index |
| NeighborRing.StepsTo | src/geometry.rs:528-537 | the number of steps from one index round to another is below eight |
| NeighborRing.AroundRing | src/geometry.rs:528-537 | going round from an index visits every index, one step at a time, and is back at the start after eight steps |
| NeighborRing.AroundReturns | src/geometry.rs:528-537 | the search is back at its starting index only after all eight steps, so it reads each neighbour once |
| RectBorders.RectBorder | src/geometry.rs:1183-1213 | the border points of a rect, corners included, counter-clockwise from the top-left corner, one per border pixel |
| RectBorders.BorderAtIsRectBorder | src/geometry.rs:1183-1213 | the step-by-step walk used by the contour proofs visits the border points in the same order |
| RectBorders.BorderIndexAt | src/geometry.rs:1183-1213 | every point of the walk is a border pixel, found again at its own position |
| RectBorders.BorderAtIndex | src/geometry.rs:1183-1213 | every border pixel is met by the walk |
| RectBorders.BorderAtInjective | src/geometry.rs:1183-1213 | the walk meets no pixel twice |
| RectBorders.NeighborOffsets | src/geometry.rs:41-52 | neighbour `j` of a point is the listed offset: up, up-right, right, down-right, down, down-left, left, up-left |
| RectBorders.StepAround | src/geometry.rs:647-653 | at each point of the walk, the counter-clockwise search after the point it came from passes only pixels outside the rect and then finds the next point |
| RectBorders.StartAround | src/geometry.rs:634-640 | the clockwise search from the left neighbour of the top-left corner passes four outside pixels and finds the walk's last point |
| Contours.InnerNeighbors | src/geometry.rs:596-604 | every neighbour of a pixel off the padding ring is a cell of the padded grid, so the neighbour reads never go out of bounds |
| Contours.IndexOf | src/geometry.rs:516-518 | `position` finds the first occurrence of the start point among the neighbours |
| Contours.ScanStart | src/geometry.rs:516-526 | the search starts at one of the eight neighbour indices: the start's own, or the next one in the search direction when skipping it |
| Contours.FindNonzeroNeighbor | src/geometry.rs:497-540 | `None` exactly when all eight neighbours are zero; otherwise a non-zero neighbour, the first met going round in the given direction from the start index |
| Contours.Clamp01 | src/geometry.rs:574 | `clamp(0, 1)` gives 1 exactly for positive values and 0 otherwise |
| Contours.PaddedNonzero | src/geometry.rs:569-577 | a cell of the padded copy is non-zero exactly when it is a positive input pixel, one row and one column further on |
| Contours.PadMask | src/geometry.rs:565-578 | a fresh copy with a zero ring around the input's values clamped into `{0, 1}` |
| Contours.KeptNonzero | src/geometry.rs:655-663 | relabelling never turns a zero cell non-zero or a non-zero cell zero |
| Contours.Relabel | src/geometry.rs:659-662 | writing a non-zero label over a non-zero cell keeps every zero cell zero and changes no other cell |
| Contours.FilledRectUnique | src/geometry.rs:1417-1455 | only one rectangle fills the positive pixels of an image |
| Contours.FirstStep | src/geometry.rs:634-640 | the clockwise search from the left neighbour at the top-left corner of a filled rectangle finds the last point of the walk round it |
| Contours.NextStep | src/geometry.rs:647-653 | each counter-clockwise search along the walk round a filled rectangle finds the next point of the walk |
| Contours.UnpaddedBorder | src/geometry.rs:681-685 | the walk round the padded rectangle, moved back by one row and column, is the walk round the input's rectangle |
| Contours.WalkAdvance | src/geometry.rs:665-672 | the loop stops exactly at the last point of the walk, with the whole walk collected, and otherwise moves on to the next point |
| Contours.NoNewBorder | src/geometry.rs:616-627 | once a filled rectangle's border is labelled, no other pixel starts a border, in either retrieval mode |
| Contours.FollowBorder | src/geometry.rs:634-679 | the traced border lies on the object and keeps zero cells zero; an isolated start gives the one-point border; a filled rectangle gives its whole walk |
| Contours.WalkBorder | src/geometry.rs:646-673 | the border loop yields points of the object, and on a filled rectangle exactly the walk, labelling each point as it goes |
| Contours.BorderStep | src/geometry.rs:647-672 | one pass finds an adjacent non-zero pixel, labels the current one, and on a filled rectangle moves along the walk and stops exactly at its end |
| Contours.MarkPixel | src/geometry.rs:655-663 | a pixel whose right neighbour is background becomes `-borderNum`, a still-unlabelled one `borderNum`, and a relabelled pixel joins the border |
| Contours.Unpad | src/geometry.rs:681-685 | every border point moves up one row and left one column, and the border keeps its length |
| Contours.UnpadPositive | src/geometry.rs:681-685 | every unpadded border point is a positive input pixel |
| Contours.SingleIsolated | src/geometry.rs:675-679 | around the only positive pixel every neighbour is zero, so its border is that one point |
| Contours.BorderStart | src/geometry.rs:616-627 | a border starts only with the search from the left or the right neighbour of the pixel |
| Contours.OuterStart | src/geometry.rs:617-623 | in either mode a 1 with background to its left starts an outer border when no border has been met on the row |
| Contours.TraceBorder | src/geometry.rs:630-687 | one border is pushed, of positive pixels; an isolated pixel pushes itself, a filled rectangle pushes its border walk |
| Contours.VisitPixel | src/geometry.rs:600-690 | the visit of one pixel keeps every contour on the object, finds a lone pixel as its own contour and a filled rectangle's border once, and adds nothing on an empty image |
| Contours.ScanRow | src/geometry.rs:596-691 | a row of the scan keeps the same facts for every pixel of the row |
| Contours.FindContours | src/geometry.rs:564-694 | every contour point is a positive input pixel; no contours exactly when no pixel is positive; a lone positive pixel gives `[[p]]`; a filled rectangle gives exactly its border, in both modes |
| OnnxNames.Split | tools/convert-onnx.py:158 | `split("_")` yields at least one piece, possibly empty, and no piece holds the separator |
| OnnxNames.JoinSplit | tools/convert-onnx.py:158 | joining the pieces of a split with the separator gives back the string |
| OnnxNames.SplitJoin | tools/convert-onnx.py:158 | splitting a join of separator-free words gives back the words |
| OnnxNames.Upper | tools/convert-onnx.py:158 | `upper()` maps a lower-case letter to its upper-case letter, which lowers back to it, and leaves other characters alone |
| OnnxNames.Capitalize | tools/convert-onnx.py:158 | `word[0].upper() + word[1:]` succeeds exactly on a non-empty word (`word[0]` raises on an empty one) |
| OnnxNames.CapitalizeAll | tools/convert-onnx.py:158 | the capitalized words run together succeed exactly when no word is empty |
| OnnxNames.SnakeToPascalRoundTrip | tools/convert-onnx.py:156-158 | for a snake_case name the conversion succeeds and converting back gives the name: nothing is lost |
| OnnxNames.SnakeToPascalFails | tools/convert-onnx.py:156-158 | the conversion raises exactly when a piece between underscores is empty |
| OnnxNames.CapitalizeAllNoSeparator | tools/convert-onnx.py:158 | the capitalized words run together hold no underscore |
| OnnxNames.PascalHasNoUnderscore | tools/convert-onnx.py:156-158 | the result holds no underscore |
| OnnxNames.SplitExample | tools/convert-onnx.py:229-230 | `round_prefer_floor` splits into `round`, `prefer`, `floor` |
| OnnxNames.CapitalizeExample | tools/convert-onnx.py:229-230 | those three words capitalize to `RoundPreferFloor` |
| OnnxNames.RoundPreferFloor | tools/convert-onnx.py:229-230 | `round_prefer_floor` becomes `RoundPreferFloor` |
| OnnxNodes.NewConstantNode | tools/convert-onnx.py:51-70 | a constant is made exactly when the shape's product equals the data size and the type is `float32` or `int32`; the size is checked first, each failure with its own error |
| OnnxNodes.GetScalar | tools/convert-onnx.py:72-75 | `None` exactly for a shape other than `[]`; for shape `[]`, `data[0]` fails exactly on a zero-dimensional array and is otherwise the one element |
| OnnxNodes.ScalarOf | tools/convert-onnx.py:72-75 | the intended lookup: the one element exactly when the shape is `[]`, whatever the array's number of dimensions |
| OnnxNodes.ScalarRoundTrip | tools/convert-onnx.py:51-75 | a scalar put into a constant node of shape `[]` comes back out of the intended lookup |
| OnnxNodes.InitializerScalarFails | tools/convert-onnx.py:72-75 | a dimensionless initializer becomes a constant of shape `[]` whose `get_scalar` fails, while the intended lookup finds its value |
| OnnxNodes.Clamp32 | tools/convert-onnx.py:379-385 | `clip` to the `int32` range: in range, unchanged in range, and the nearest bound outside it |
| OnnxNodes.ConvertData | tools/convert-onnx.py:358-390 | `float32`/`int32` are kept, `bool`/`int8`/`int16` widened to `int32`, `int64` clamped to `int32`, any other type rejected; the dimensions and the element count are kept |
| OnnxNodes.ConvertInitializer | tools/convert-onnx.py:351-392 | succeeds exactly for a supported type whose dims match its data, giving a valid constant of the tensor's name and dims holding the converted data |
| OnnxNodes.Int64InRange | tools/convert-onnx.py:379-385 | every integer an `int64` initializer converts to lies in the `int32` range |
| OnnxNodes.Int64InRangeKept | tools/convert-onnx.py:379-385 | an `int64` initializer whose values already fit keeps every value |
| OnnxNodes.ValueNodeOf | tools/convert-onnx.py:413-418 | a value node of the value's name, whose shape is unknown exactly when the value has no dimensions, and otherwise one entry per dimension |
| OnnxNodes.Names | tools/convert-onnx.py:860-866 | the names of a run of graph inputs, no more and no fewer |
| OnnxNodes.NewInputsFresh | tools/convert-onnx.py:860-866 | the input loop appends value nodes with distinct names, none of them known before |
| OnnxNodes.GraphBuilder.constructor | tools/convert-onnx.py:815-821 | the builder starts with no nodes and empty tensor and constant maps |
| OnnxNodes.GraphBuilder.NamesTaken | tools/convert-onnx.py:823-831 | the names taken are exactly the names of the nodes added so far |
| OnnxNodes.GraphBuilder.AddNode | tools/convert-onnx.py:823-831 | a taken name raises and changes nothing; otherwise the node is appended, its name maps to its index, which is returned, and a constant is also recorded |
| OnnxNodes.GraphBuilder.AddGraphInputs | tools/convert-onnx.py:860-866 | inputs whose name is taken are skipped, every other becomes a value node; existing names keep their indices and the constant map is unchanged |
| OnnxNodes.AddThenLookup | tools/convert-onnx.py:823-831 | adding a node under a fresh name and looking the name up gives the node back |
| OnnxNodes.ResolveInputs | tools/convert-onnx.py:488-502 | succeeds exactly when every non-empty input name is a known tensor; an empty name is an omitted input (`None`), every other its index |
| OnnxNodes.ResolveOutputs | tools/convert-onnx.py:504-511 | succeeds exactly when every output name is a known tensor, each mapped to its index |
| OnnxNodes.NodeId | tools/convert-onnx.py:976-979 | an absent id is written as -1 and every present id as itself, never below -1 |
| OnnxNodes.NodeIdRoundTrip | tools/convert-onnx.py:976-979 | reading a written id back gives the id, absent or not |
| OnnxNodes.NodeIdInjective | tools/convert-onnx.py:976-979 | distinct ids are written differently |
| OnnxReader.FindAttr | tools/convert-onnx.py:209-210 | the position of the first attribute of that name, or none exactly when no attribute has it |
| OnnxReader.AttrOf | tools/convert-onnx.py:209-210 | the value of the first attribute of that name, absent exactly when there is none |
| OnnxReader.Lookup | tools/convert-onnx.py:203-223 | the default when absent; a type mismatch raises; a matching type without a value field raises; a matching type with a value field gives exactly that attribute's value |
| OnnxReader.Unhandled | tools/convert-onnx.py:330-336 | exactly the attributes whose names were not handled, in order |
| OnnxReader.Wrap32 | tools/convert-onnx.py:290 | `astype(np.int32)` keeps in-range values and otherwise wraps modulo 2^32 into the `int32` range |
| OnnxReader.AttrConstant | tools/convert-onnx.py:287-305 | an `int` becomes an `int32` scalar, a `float` a `float32` scalar, `ints` an `int32` constant of shape `[n]` over a `(1, n)` array (`np.array([attr_val])`); any other type raises |
| OnnxReader.AttrScalarFails | tools/convert-onnx.py:287-305 | the scalar constant made from an attribute has shape `[]` but a zero-dimensional array, so `get_scalar` raises while the intended lookup gives the value |
| OnnxReader.CheckIntsLength | tools/convert-onnx.py:339-348 | passes exactly when the list has the allowed length, and raises otherwise |
| OnnxReader.EnumVariant | tools/convert-onnx.py:234-246 | the enum variant is the PascalCase form or that form with `_` appended, and none exactly when neither names a variant or the conversion fails |
| OnnxReader.OperatorReader.constructor | tools/convert-onnx.py:190-201 | a reader of the operator with a copy of its input indexes and nothing handled yet |
| OnnxReader.OperatorReader.GetAttr | tools/convert-onnx.py:203-223 | marks the name handled, keeps the inputs, and answers Lookup |
| OnnxReader.OperatorReader.IgnoreAttr | tools/convert-onnx.py:248-254 | marks the name handled and changes nothing else |
| OnnxReader.OperatorReader.RequireAttr | tools/convert-onnx.py:256-261 | a missing attribute raises; it succeeds exactly for a present attribute of the expected type, with its value |
| OnnxReader.OperatorReader.CheckAttr | tools/convert-onnx.py:312-328 | passes when the attribute is absent; a present attribute must have one of the accepted values |
| OnnxReader.OperatorReader.UnhandledAttrs | tools/convert-onnx.py:330-336 | exactly the operator's attributes never read or ignored |
| OnnxReader.OperatorReader.GetEnumAttr | tools/convert-onnx.py:225-246 | marks the name handled; the text (or the default) is converted and must name one of the variants |
| OnnxReader.OperatorReader.PlaceInput | tools/convert-onnx.py:308-310 | the inputs are padded with `None` up to the index, which then holds the new id |
| OnnxReader.OperatorReader.GenerateInputFromAttr | tools/convert-onnx.py:263-310 | an absent attribute changes nothing; an existing input at the index raises; otherwise a new constant of the value becomes that input |
| OnnxReader.OperatorReader.ReadPads | tools/convert-onnx.py:421-441 | `SAME_UPPER`/`SAME_LOWER` give computed padding; `NOTSET` explicit pads of 2 or 4 values, all zero by default; any other mode raises |
| OnnxReader.OperatorReader.ReadPerAxis | tools/convert-onnx.py:444-465 | marks the name handled; `[1, 1]` when absent, an `ints` value of 1 or 2 entries, and a type mismatch or another length raises |
| OnnxReader.OperatorReader.ReadStrides | tools/convert-onnx.py:444-453 | strides of 1 or 2 values, `[1, 1]` when absent |
| OnnxReader.OperatorReader.ReadDilations | tools/convert-onnx.py:456-465 | dilations of 1 or 2 values, `[1, 1]` when absent |
| OnnxReader.ReadIsHandled | tools/convert-onnx.py:203-206 | after an attribute is read it is no longer reported unhandled, and nothing new becomes unhandled |
| OnnxReader.ConstantFromOp | tools/convert-onnx.py:395-410 | an operator without outputs raises; otherwise its required `value` tensor, converted like an initializer, named after its first output |
| KvNames.DigitChar | rten-examples/src/generator.rs:158 | the digit character whose value is the given digit |
| KvNames.Decimal | rten-examples/src/generator.rs:158 | `format!("{}", n)`: a non-empty run of digits, starting with `0` exactly when the number is 0 |
| KvNames.ParseDecimal | rten-examples/src/generator.rs:148-158 | reading back the decimal a layer index is written as gives the index |
| KvNames.DecimalParse | rten-examples/src/generator.rs:148-158 | a numeral without leading zeros is what the index it reads as is written as |
| KvNames.TakeDigits | rten-examples/src/generator.rs:148-152 | `take_while(is_ascii_digit)`: the longest prefix of digits, stopped by a non-digit or the end |
| KvNames.TakeDigitsStops | rten-examples/src/generator.rs:148-152 | digits followed by text starting with a non-digit give exactly those digits |
| KvNames.ParseU32 | rten-examples/src/generator.rs:153-155 | `parse::<u32>` fails exactly on an empty run or a value above `u32::MAX`, and otherwise reads the digits |
| KvNames.LayerIndex | rten-examples/src/generator.rs:148-155 | the layer index read after the prefix is at most `u32::MAX` |
| KvNames.LayerIndexOfInputName | rten-examples/src/generator.rs:127-157 | an input named `past_key_values.<N>.<type>` has the prefix and yields layer `N` back |
| KvNames.CacheTypeOfInputName | rten-examples/src/generator.rs:141-145 | the cache type `key` or `value` is read back from the name's suffix |
| KvNames.NoDigitNoLayer | rten-examples/src/generator.rs:148-155 | a name without a digit after the prefix has no layer index |
| KvNames.LeadingZeroDropped | rten-examples/src/generator.rs:148-157 | `past_key_values.07.key` reads layer 7 and so pairs with `present.7.key` |
| TokenGenerator.EntryForNamed | rten-examples/src/generator.rs:116-167 | every cache entry comes from an input with the prefix, a `.key`/`.value` suffix and a layer index, is paired with output `present.<N>.<type>` and starts as an empty 4-D float tensor with batch 1 and sequence length 0 |
| TokenGenerator.EntryForConvention | rten-examples/src/generator.rs:116-167 | a conventionally named input of shape (batch, fixed heads, past, fixed size) whose output exists becomes the entry of shape (1, heads, 0, size) |
| TokenGenerator.ConventionName | rten-examples/src/generator.rs:127-157 | a conventional cache input name passes every name check of the scan |
| TokenGenerator.OtherNamesSkipped | rten-examples/src/generator.rs:127-129 | an input whose name lacks the prefix is skipped whatever its shape |
| TokenGenerator.NoLayerSkipped | rten-examples/src/generator.rs:148-155 | an input without digits after the prefix is skipped, unless its shape check failed first |
| TokenGenerator.KvEntriesShaped | rten-examples/src/generator.rs:116-167 | a successful scan yields at most one entry per input, each an empty 4-D float tensor |
| TokenGenerator.KvEntriesErrPersists | rten-examples/src/generator.rs:116-167 | once the scan has failed, later inputs leave the error unchanged |
| TokenGenerator.FindKvCaches | rten-examples/src/generator.rs:116-167 | the loop over the model's inputs gives exactly the entries of the scan, or its first error |
| TokenGenerator.AsI32 | rten-examples/src/generator.rs:213 | `as i32` of an unsigned value: in the `i32` range, unchanged below 2^31, equal modulo 2^32 |
| TokenGenerator.InputIdsTensor | rten-examples/src/generator.rs:210-215 | shape (1, n) holding each token id cast to `i32`, in order |
| TokenGenerator.AttentionMask | rten-examples/src/generator.rs:217 | shape (1, n), all ones |
| TokenGenerator.PositionIds | rten-examples/src/generator.rs:218-220 | shape (1, n) holding `seq_len + pos`; defined exactly when no addition overflows `i32`, which holds whenever `seq_len + n` stays within 2^31 |
| TokenGenerator.PositionsOverflow | rten-examples/src/generator.rs:218-220 | the positions `MaxI32` then `MaxI32 + 1` overflow while `MaxI32` alone does not |
| TokenGenerator.PositionsContinue | rten-examples/src/generator.rs:218-291 | the positions of one step followed by those of the next step, which starts where the first ended, are those of both steps fed at once |
| TokenGenerator.StepInputs | rten-examples/src/generator.rs:222-261 | the token ids first, then the mask and positions when the model takes them, then the propagated constants, then each cache under its input id |
| TokenGenerator.StepOutputs | rten-examples/src/generator.rs:264-267 | the logits first, then each cache's output id in order |
| TokenGenerator.Generator.constructor | rten-examples/src/generator.rs:169-180 | a generator of the given node ids and caches, with no constants, no tokens and length 0 |
| TokenGenerator.Generator.WithPrompt | rten-examples/src/generator.rs:185-188 | the prompt becomes the tokens of the next step; nothing else changes |
| TokenGenerator.Generator.WithConstantInput | rten-examples/src/generator.rs:194-198 | the input is appended to the constants and the propagated constants are dropped; nothing else changes |
| TokenGenerator.Generator.GenerateNextToken | rten-examples/src/generator.rs:201-295 | positions that overflow fail first; constants are propagated only when none are kept; on success the token is the sampled one, cache `i` holds output `i + 1`, the length grows by the tokens fed and the next step feeds that token alone; a failure keeps the tokens and the length |
| TokenGenerator.Generator.UpdateCaches | rten-examples/src/generator.rs:286-288 | succeeds exactly when every update is a 4-D float tensor, and then cache `i` holds update `i`; ids, tokens and length are kept |
| TokenGenerator.Generator.Next | rten-examples/src/generator.rs:305-307 | always an item: the result of one step |
| TokenGenerator.FromModel | rten-examples/src/generator.rs:102-181 | `input_ids` missing fails, then `logits` missing fails, then the cache scan decides; on success the optional inputs are found by name, the caches are the scan's and the generator starts empty at length 0 |
| TokenGenerator.StopOnToken | rten-examples/src/generator.rs:314-319 | the longest prefix of successful tokens other than the end token |
| TokenGenerator.TokensUpTo | rten-examples/src/generator.rs:368 | the first `n` tokens, in order |
| TokenGenerator.TextNext | rten-examples/src/generator.rs:359-379 | an error is passed on at once; otherwise the first buffer of tokens that decodes gives the joined strings, no shorter buffer decoded, and running out of items gives none |

## Left out

- Drawing.FillRect, Drawing.StrokeRect: require the rect (for StrokeRect, each of its four edge rects) to fit in the grid (`Fits`). The source indexes out of bounds and panics there (src/geometry.rs:864-870). The out-of-bounds panic is not modelled.
- Drawing.DrawLine: requires both image dimensions to be at most `i32::MAX`. The source's `try_into().unwrap()` panics on a larger image (src/geometry.rs:886-887), and that panic is not modelled. The sloped branches also double `dx` and `dy` in `i32` (src/geometry.rs:917-919, 933-935). In a debug build that overflows once the longer side of a sloped line is 2^30 or more, for example on an image of 2 × (2^30 + 1) cells with a line from (0, 0) to (1, 2^30). The model computes those doublings in unbounded integers, so this overflow is not modelled either.
- Contours.FindContours: takes a `maxSteps` budget for each border walk, and returns `Err(StepLimit)` once the budget runs out. The source has no budget; its walk ends because the border is finite. The filled-rectangle property is proved for a budget of at least the border's length.
- Contours.FindContours: the filled-rectangle property covers rectangles at least 2 pixels high and wide. A 1-pixel line traces its pixels twice and is not covered. The single-pixel and empty cases have their own clauses.
- Graph.Ranked: the planner and executor require a ranking of the operators that puts each operator after the operators producing its inputs. This excludes cyclic graphs. A cycle that a requested output reaches makes the source's planner recurse forever. The ranking must cover every operator in the graph, so the model also excludes two kinds of graph that the source plans and runs: a cycle that no requested output reaches, since `visit` descends only from the requested ids (src/graph.rs:190-216), and a cycle that a bound value breaks.
- Graph: the timing and logging of `Graph::run` (`RunOptions`, `Instant`, `println!`, src/graph.rs:116-131) have no effect on results and are not modelled.
- Ops: `f32` values are real numbers plus NaN. Rounding and infinities are not modelled. `IntToFloat`, `FloatToInt`, `OpsCumSum.AddF32` and `OpsReduce.MulF32` compute exactly.
- Ops: `batch_norm` and the `gemm`/`matmul` kernels are floating-point arithmetic and are not modelled. Of `gemm_op`/`matmul`, only the argument checks are modelled. The mean and L2 reductions are modelled (`OpsReduce.MeanF32`, `OpsReduce.L2F32`), but without float rounding.
- HwcOps: the convolution and pooling arithmetic and `relu`/`sigmoid` (src/ops.rs:26-127) are not part of this model. Only their shapes, checks and the max-pool cell are modelled.
- OpsTopK.TopK, OpsTopK.TopKRun: the operator sorts with the corrected comparator `TopKCmp`, under which two NaNs are ordered by index. The source's comparator (src/ops/reduce.rs:701-711) says each of two NaNs comes before the other. Its `select_nth_unstable_by`/`sort_unstable_by` (src/ops/reduce.rs:722-727) then leave the order of NaN entries unspecified, and may panic on the total-order violation. That unspecified order and the possible panic are not captured; the defect itself is the TopK row of "## Findings".
- OpsTranspose: the tensor library's `permute` is not part of this model. It is taken to panic on an order that is not a permutation of the dimensions, and otherwise to move each element to its reordered index.
- OpsSliceSteps: `SliceRange::resolve_clamped`, the input-list accessors and the `static_dims!` rank check are not part of this model. Clamping follows the ONNX Slice definition and the source's tests. `static_dims!` is taken to fail with `IncompatibleInputShapes` on a tensor that is not 1-dimensional.
- OpsSlice: the tensor library's element slicing and `clip_dim` are not part of this model. Both are taken to panic unless `start <= end <= size` in every dimension, and otherwise to keep exactly the elements in those ranges.
- HwcOps.Conv2dShape, HwcOps.Conv2dShapePadded, HwcOps.Conv2dShapeAgrees, HwcOps.ConvTranspose2dShape, HwcOps.ConvTransposeWritesInside, HwcOps.MaxPool2dShape, HwcOps.MaxPool2d, HwcOps.Pad2dShape, HwcOps.Pad2d: require a 3-dimensional input (and a 4-dimensional kernel), through `|input| == 3`, `|kernel| == 4` or `Hwc(input)`. The source takes any tensor, and `dims3`/`dims4` (src/ops.rs:1, 11-12) panic on any other rank. That wrong-rank panic is not modelled.
- HwcOps.Sub: `usize` subtraction that underflows is the debug-build panic `SubtractOverflow`, used by the `conv_2d` shape.
- OpsCumSum.CheckedI32, OpsReduce.SumI32, OpsReduce.ProdI32: an `i32` sum or product that overflows panics, as in a debug build. `ReduceOverflows` says when. The release build's wrap-around is not modelled.
- Ops.WrapI32: the `as i32` casts of indices and counts in ArgMax, Gather, NonZero, Shape and TopK keep the low 32 bits.
- TokenGenerator.PositionIds: `seq_len as i32 + pos as i32` (rten-examples/src/generator.rs:218-220) is `None` when the addition overflows, which the step reports as an `Overflow` error in place of the debug panic.
- TokenGenerator.Generator.GenerateNextToken: `seq_len += len as u32` (rten-examples/src/generator.rs:291) overflowing is an `Overflow` error in place of the debug panic. The caches have already taken the step's updates.
- OpsTopK.TopKRun: the `sorted` flag is not a parameter. The output is always sorted, which is one of the orders the source allows when `sorted` is false.
- OpsReshape: the `usize` product of the specified dimensions (`specified_dims_size`) is unbounded here. Its overflow is not modelled.
- OpsReshape: `Tensor::clone_with_shape` is not part of this model. It is taken to keep the data and to panic when the new shape's size differs, which the model reports as an error.
- Ops.ResolveAxis, OpsReduce.ResolveAxes: `resolve_axis` and `resolve_axes` are not part of this model. They are specified from the tests: an axis in `[-rank, rank)` counts from the end when negative, and any other is `InvalidValue`.
- Slicing: `SliceRange::resolve_clamped` and the tensor's `clip_dim` are not part of this model. They are specified from the tests in src/ops/slice.rs as ONNX Slice clamping.
- Ops.CastRun, Ops.CastRunInPlace: `Cast` in src/ops/convert.rs is the `Cast` of src/ops/mod.rs:361-395 in the newer API, which returns `Vec<Output>`. The model covers it with the one output. `can_run_in_place` is true for both (Ops.CanRunInPlace).
- Geometry: coordinates are unbounded integers, not `i32`. Overflow in rect arithmetic is not modelled.
- Geometry: `Vec2`, `Line::distance`, polyline simplification, the convex hull and rotated rects are floating-point and not modelled.
- OnnxNodes: floats are reals, and NumPy's `float32` rounding is not modelled.
- OnnxNames.Upper: case mapping covers ASCII letters only. Python's `upper()` also maps other letters.
- OnnxNodes, OnnxReader: loading ONNX files, the FlatBuffers output (`build_constant_node`, `build_value_node`, `write_graph`) and `main` are I/O and are not modelled. An ONNX tensor is its name, dims and decoded array.
- TokenGenerator: `Model::run`, `partial_run`, the arg-max over the logits and the tokenizer are parameters (`Runner`, `decode`), not models.
- rten-cli, rten-text and rten-vecmath are command-line, JSON and SIMD code and are not part of this model.

## Findings

| source | as written | input that shows it | evidently intended | confidence | as-written member | corrected member |
|---|---|---|---|---|---|---|
| src/ops.rs:156-174 | `concat` copies `stride(dim)`-sized chunks from the two inputs in turn while both still have data | concat of `[1, 2]` and `[3, 4]` along dim 0 gives `[1, 3, 2, 4]` | all of `a`'s slice, then all of `b`'s, for each outer index: `[1, 2, 3, 4]` | not executed | HwcOps.ConcatInterleaves | HwcOps.ConcatCorrected |
| src/ops.rs:106 | `max_pool_2d` starts each cell's maximum at `input[[out_y, out_x, chan]]`, which lies outside the window when `k > 1` | `k = 2`, a 4x4 image with a 9 at `(1, 1)` and zeros elsewhere: output cell `(1, 1)` is 9 though its window holds only zeros | the maximum over the window alone | not executed | HwcOps.MaxPoolReadsOutsideWindow | HwcOps.MaxPoolCellIsMax |
| src/ops.rs:22-23 | `in_h - k_h + 1 + 2 * pad_h` subtracts before it adds the padding, so a kernel taller than the input underflows `usize` | a 1x1 image, a 3x3 kernel and padding 1 | `in_h + 2 * pad_h - k_h + 1` = 1 | not executed | HwcOps.PaddedKernelOverflows | HwcOps.Conv2dShapePadded |
| src/geometry.rs:312-316 | `center` halves the coordinate sums with `/ 2`, which rounds toward zero | the one-pixel rect at `(-3, -3)` has center `(-2, -2)`, outside it | the midpoint rounded down, which lies in every non-empty rect | not executed | Geometry.CenterOutsideRect | Geometry.Center |
| src/ops/mod.rs:792-801 | `Concat::run` keeps the inputs of the first input's kind with `.flatten()` and silently drops the others | `[float a, int b]` concatenates `a` alone | a type error when the inputs' kinds differ | not executed | OpsConcat.MixedConcatDropsInput | OpsConcat.FloatInputs |
| src/ops/mod.rs:1021-1026 | `squeeze` without axes keeps the dimensions of size greater than 1, so it also drops dimensions of size 0 | shape `[0, 3]` becomes `[3]`, and the reshape to it fails | drop only the dimensions of size 1: `[0, 3]` stays | not executed | OpsReshape.SqueezeDropsEmptyDimension | OpsReshape.SqueezeOnesShape |
| src/ops/mod.rs:447-462 | `gather` with a 0-D index never writes `in_index[axis + 1]`, which stays 0 from its initialisation | `[[1, 2], [3, 4]]`, axis 0, 0-D index 1 gives `[3, 3]` | row 1: `[3, 4]` | not executed | OpsGather.ScalarIndexSkipsDimension | OpsGather.GatherSpec |
| src/ops/reduce.rs:134 | `select_max_index` uses `max_by`, which returns the last of equal elements | ArgMax of `[1, 1]` is 1 | the first of equal elements, as ONNX ArgMax without `select_last_index`: 0 | not executed | OpsArgMax.ArgMaxTieAsWritten | OpsArgMax.FirstArgMaxSelects |
| src/ops/reduce.rs:208-226 | `cum_sum` writes the running sums lane after lane, so for an axis other than the last the output is not in the input's layout | `[[0, 1, 2, 3], [0, 1, 2, 3]]` along axis 0 gives `[0, 0, 1, 2, 2, 4, 3, 6]` | each element the sum along the axis up to it, in place: `[0, 1, 2, 3, 0, 2, 4, 6]` | not executed | OpsCumSum.RowsAsWritten | OpsCumSum.CumSumLanes |
| src/ops/reduce.rs:701-711 | the `topk` comparator answers `Less` for two NaNs whichever is asked first | NaN at index 0 and NaN at index 1 with `largest`: each is before the other | a total order: NaNs are equal in value and ordered by index | not executed | OpsTopK.TopKCmpAsWrittenNaN | OpsTopK.TopKCmpAntisymmetric |
| tools/convert-onnx.py:72-75 | `get_scalar` returns `self.data[0]`, which raises on a zero-dimensional array, the array a dimensionless initializer or a scalar attribute becomes | an initializer with `dims = []` | the one element of a constant of shape `[]` | not executed | OnnxNodes.InitializerScalarFails | OnnxNodes.ScalarRoundTrip |
