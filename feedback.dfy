// The panel's boolean feedbacks: pure functions of the selection and of the
// selected output's route and fallback history.

module Feedback {
  import opened Topology

  /** "Take is possible": a full selection whose source is not already live. */
  function TakePossible(sel: Selection, ms: seq<Matrix>): (r: bool)
    requires PhaseOf(sel) == SourceChosen ==> TargetExists(sel, ms)
    ensures r <==> PhaseOf(sel) == SourceChosen && ms[sel.matrix].outputs[sel.target].route != Some(sel.source)
  {
    sel.target != Unset && sel.source != Unset && sel.matrix != Unset &&
    Some(sel.source) != ms[sel.matrix].outputs[sel.target].route
  }

  /** "Clear is possible": something is selected. */
  function ClearPossible(sel: Selection): (r: bool)
    ensures r <==> sel != Idle
    ensures r <==> PhaseOf(sel) != IdlePhase
  {
    sel.target != Unset || sel.source != Unset || sel.matrix != Unset
  }

  /** "Undo is possible": the selected output has an entry one undo step back. */
  function UndoPossible(sel: Selection, ms: seq<Matrix>): (r: bool)
    requires sel.matrix != Unset && sel.target != Unset ==> TargetExists(sel, ms)
    ensures r <==> sel.matrix != Unset && sel.target != Unset &&
                   UndoEntry(ms[sel.matrix].outputs[sel.target]).Some?
  {
    if sel.matrix != Unset && sel.target != Unset then
      var o := ms[sel.matrix].outputs[sel.target];
      var n := |o.fallback|;
      0 <= n - 2 < n
    else
      false
  }

  /** The source button `i` of kind `k` is lit when it is the selected source. */
  function SourceSelected(sel: Selection, k: MatrixKind, i: int): (r: bool)
    ensures r ==> sel != Idle && sel.matrix == Index(k)
  {
    sel.source == i && sel.matrix == Index(k)
  }

  /** The target button `i` of kind `k` is lit when it is the selected target. */
  function TargetSelected(sel: Selection, k: MatrixKind, i: int): (r: bool)
    ensures r ==> sel != Idle && sel.matrix == Index(k)
  {
    sel.target == i && sel.matrix == Index(k)
  }

  /** The route of the selected output, None when nothing is selected or the
      output or its route is missing. */
  function LiveRoute(sel: Selection, ms: seq<Matrix>): (r: Option<int>)
    requires sel.matrix != Unset ==> HasMatrix(sel, ms)
    ensures r.Some? ==> sel.matrix != Unset && 0 <= sel.target < |ms[sel.matrix].outputs| &&
                        ms[sel.matrix].outputs[sel.target].route == r
    ensures sel.matrix != Unset && 0 <= sel.target < |ms[sel.matrix].outputs| ==>
              r == ms[sel.matrix].outputs[sel.target].route
    ensures sel.matrix == Unset ==> r == None
  {
    if sel.matrix == Unset then None
    else
      match SelectedOutput(sel, ms)
      case None => None
      case Some(o) => o.route
  }

  /** "Take tally": source `i` of kind `k` is live on the selected target. */
  function SourceTallied(sel: Selection, ms: seq<Matrix>, k: MatrixKind, i: int): (r: bool)
    requires Index(k) < |ms|
    ensures r <==> sel.matrix == Index(k) && LiveRoute(sel, ms) == Some(i)
  {
    if sel.matrix != Index(k)
       || !(0 <= sel.target < |ms[sel.matrix].outputs|)
       || ms[sel.matrix].outputs[sel.target].route.None?
    then false
    else Some(i) == ms[sel.matrix].outputs[sel.target].route
  }

  /** Every feedback of the panel is off. */
  ghost predicate AllDark(sel: Selection, ms: seq<Matrix>)
    requires KindsPresent(ms)
    requires PhaseOf(sel) == SourceChosen ==> TargetExists(sel, ms)
    requires sel.matrix != Unset && sel.target != Unset ==> TargetExists(sel, ms)
  {
    !TakePossible(sel, ms) && !ClearPossible(sel) && !UndoPossible(sel, ms) &&
    (forall k: MatrixKind, i: int :: !SourceSelected(sel, k, i)) &&
    (forall k: MatrixKind, i: int :: !TargetSelected(sel, k, i)) &&
    (forall k: MatrixKind, i: int :: !SourceTallied(sel, ms, k, i))
  }

  /** With nothing selected, every feedback is off whatever the routing. */
  lemma IdleAllDark(ms: seq<Matrix>)
    requires KindsPresent(ms)
    ensures AllDark(Idle, ms)
  {
  }

  /** Two lit source buttons are the same button. */
  lemma SourceSelectedUnique(sel: Selection, k: MatrixKind, i: int, k': MatrixKind, i': int)
    requires SourceSelected(sel, k, i) && SourceSelected(sel, k', i')
    ensures k == k' && i == i'
  {
  }

  /** Two lit target buttons are the same button. */
  lemma TargetSelectedUnique(sel: Selection, k: MatrixKind, i: int, k': MatrixKind, i': int)
    requires TargetSelected(sel, k, i) && TargetSelected(sel, k', i')
    ensures k == k' && i == i'
  {
  }

  /** Two lit tally buttons are the same button. */
  lemma SourceTalliedUnique(sel: Selection, ms: seq<Matrix>, k: MatrixKind, i: int, k': MatrixKind, i': int)
    requires Index(k) < |ms| && Index(k') < |ms|
    requires SourceTallied(sel, ms, k, i) && SourceTallied(sel, ms, k', i')
    ensures k == k' && i == i'
  {
  }

  /** Tally is dark on every kind but the selected matrix's. */
  lemma TallyOnlyOnSelectedMatrix(sel: Selection, ms: seq<Matrix>, k: MatrixKind, i: int)
    requires Index(k) < |ms|
    requires sel.matrix != Index(k)
    ensures !SourceTallied(sel, ms, k, i)
  {
  }

  /** A selected source that is already tallied cannot be taken. */
  lemma TalliedSourceNotTakeable(sel: Selection, ms: seq<Matrix>, k: MatrixKind)
    requires Index(k) < |ms|
    requires PhaseOf(sel) == SourceChosen ==> TargetExists(sel, ms)
    requires SourceSelected(sel, k, sel.source) && SourceTallied(sel, ms, k, sel.source)
    ensures !TakePossible(sel, ms)
  {
  }

  /** Take and Undo are only offered while Clear is. */
  lemma TakeOrUndoImpliesClear(sel: Selection, ms: seq<Matrix>)
    requires PhaseOf(sel) == SourceChosen ==> TargetExists(sel, ms)
    requires sel.matrix != Unset && sel.target != Unset ==> TargetExists(sel, ms)
    ensures TakePossible(sel, ms) ==> ClearPossible(sel)
    ensures UndoPossible(sel, ms) ==> ClearPossible(sel)
  {
  }
}
