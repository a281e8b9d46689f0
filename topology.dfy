// The routing-matrix topology and the operator's selection cursor: the
// shapes the panel's handlers, feedbacks and variables all read.

module Topology {

  datatype Option<+T> = None | Some(value: T)

  /** The four matrix kinds of the device, each addressed by a fixed index. */
  datatype MatrixKind = Video | Audio | VideoQuad | AudioQuad

  /** The index of a kind's matrix in the panel's matrix table. */
  function Index(k: MatrixKind): (i: nat)
    ensures i < KindCount
  {
    match k
    case Video => 0
    case Audio => 1
    case VideoQuad => 2
    case AudioQuad => 3
  }

  const KindCount: nat := 4

  predicate IsKindIndex(m: int) {
    0 <= m < KindCount
  }

  datatype Input = Input(id: int, name: string, active: bool)

  /** An output; `route` is None while the device has reported no routed input. */
  datatype Output = Output(id: int, name: string, active: bool, route: Option<int>, fallback: seq<int>)

  datatype Matrix = Matrix(name: string, path: string, inputs: seq<Input>, outputs: seq<Output>)

  /** Every kind has its matrix in the table. */
  predicate KindsPresent(ms: seq<Matrix>) {
    KindCount <= |ms|
  }

  /** The selection triple; -1 marks a slot with nothing chosen. */
  datatype Selection = Selection(matrix: int, source: int, target: int)

  const Unset: int := -1

  const Idle: Selection := Selection(Unset, Unset, Unset)

  /** The input with index `route` of matrix `m`, if the route is known and in range. */
  function InputAt(m: Matrix, route: Option<int>): (r: Option<Input>)
    ensures r.Some? <==> route.Some? && 0 <= route.value < |m.inputs|
    ensures r.Some? ==> r.value == m.inputs[route.value]
  {
    match route
    case None => None
    case Some(i) => if 0 <= i < |m.inputs| then Some(m.inputs[i]) else None
  }

  /** Whether the selection names a matrix of the table. */
  predicate HasMatrix(sel: Selection, ms: seq<Matrix>) {
    0 <= sel.matrix < |ms|
  }

  /** The selected output, None when the target is outside the matrix's outputs. */
  function SelectedOutput(sel: Selection, ms: seq<Matrix>): (r: Option<Output>)
    requires HasMatrix(sel, ms)
    ensures r.Some? <==> 0 <= sel.target < |ms[sel.matrix].outputs|
    ensures r.Some? ==> r.value == ms[sel.matrix].outputs[sel.target]
  {
    var outs := ms[sel.matrix].outputs;
    if 0 <= sel.target < |outs| then Some(outs[sel.target]) else None
  }

  /** Matrix and target are set and name an existing output. */
  predicate TargetExists(sel: Selection, ms: seq<Matrix>) {
    sel.matrix != Unset && sel.target != Unset &&
    HasMatrix(sel, ms) && 0 <= sel.target < |ms[sel.matrix].outputs|
  }

  /** The route that one Undo step restores: the second newest fallback entry. */
  function UndoEntry(o: Output): (r: Option<int>)
    ensures r.Some? <==> 2 <= |o.fallback|
    ensures r.Some? ==> r.value in o.fallback && r.value == o.fallback[|o.fallback| - 2]
  {
    if 2 <= |o.fallback| then Some(o.fallback[|o.fallback| - 2]) else None
  }

  /** The table with the fallback history of output `t` of matrix `m` replaced. */
  function WithFallback(ms: seq<Matrix>, m: int, t: int, fb: seq<int>): (r: seq<Matrix>)
    requires 0 <= m < |ms| && 0 <= t < |ms[m].outputs|
    ensures |r| == |ms| && |r[m].outputs| == |ms[m].outputs|
    ensures r[m].outputs[t].fallback == fb
    ensures r[m].outputs[t] == ms[m].outputs[t].(fallback := fb)
    ensures forall i :: 0 <= i < |ms| && i != m ==> r[i] == ms[i]
    ensures forall j :: 0 <= j < |ms[m].outputs| && j != t ==> r[m].outputs[j] == ms[m].outputs[j]
    ensures r[m].name == ms[m].name && r[m].path == ms[m].path && r[m].inputs == ms[m].inputs
  {
    var o := ms[m].outputs[t];
    ms[m := ms[m].(outputs := ms[m].outputs[t := o.(fallback := fb)])]
  }

  /** Replacing the same history twice keeps only the second replacement. */
  lemma WithFallbackTwice(ms: seq<Matrix>, m: int, t: int, a: seq<int>, b: seq<int>)
    requires 0 <= m < |ms| && 0 <= t < |ms[m].outputs|
    ensures WithFallback(WithFallback(ms, m, t, a), m, t, b) == WithFallback(ms, m, t, b)
  {
    var once := WithFallback(ms, m, t, a);
    assert once[m].outputs[t := once[m].outputs[t].(fallback := b)]
        == ms[m].outputs[t := ms[m].outputs[t].(fallback := b)];
  }

  /** The phases of the selection state machine. */
  datatype Phase = IdlePhase | TargetChosen | SourceChosen | Malformed

  function PhaseOf(sel: Selection): Phase {
    if sel == Idle then IdlePhase
    else if sel.matrix != Unset && sel.target != Unset then
      (if sel.source == Unset then TargetChosen else SourceChosen)
    else Malformed
  }

  /** The shape every handler keeps: the matrix is a kind's index or unset,
      the target is set exactly when the matrix is, and a source only with a matrix. */
  predicate WellFormed(sel: Selection) {
    (sel.matrix == Unset || IsKindIndex(sel.matrix)) &&
    (sel.matrix == Unset <==> sel.target == Unset) &&
    (sel.matrix == Unset ==> sel.source == Unset)
  }

  /** Every selection the handlers leave is idle, has a target chosen, or has a source chosen. */
  lemma WellFormedPhase(sel: Selection)
    requires WellFormed(sel)
    ensures PhaseOf(sel) != Malformed
  {
  }
}
