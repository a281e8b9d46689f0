// The operator actions: select target, select source, take, clear and undo,
// acting in place on the panel's selection and matrix table. The connection to
// the device is abstracted as a log of the requests the panel sends, and the
// outcome of resolving the matrix node is an input of each commit.

module Actions {
  import opened Topology
  import Feedback
  import Variables

  /** How resolving the matrix node turned out: a matrix node was found, the
      path named nothing (or not a matrix), or the lookup was rejected. */
  datatype Lookup = Found | NotFound | Rejected

  /** A request sent to the device. */
  datatype Request =
    | Resolve(path: string)
    | Connect(matrix: int, target: int, sources: seq<int>)

  /** The requests one commit of (m, s, t) sends, given how the lookup turned out. */
  function CommitRequests(path: string, m: int, s: int, t: int, outcome: Lookup): (r: seq<Request>)
    ensures 1 <= |r| <= 2 && r[0] == Resolve(path)
    ensures |r| == 2 <==> outcome == Found
    ensures outcome == Found ==> r[1] == Connect(m, t, [s])
  {
    [Resolve(path)] + (if outcome == Found then [Connect(m, t, [s])] else [])
  }

  class Panel {
    var selected: Selection
    var matrices: seq<Matrix>
    ghost var requests: seq<Request>

    /** Every kind has its matrix, and the selection has the shape the handlers keep. */
    ghost predicate Valid()
      reads this
    {
      KindsPresent(matrices) && WellFormed(selected)
    }

    constructor (ms: seq<Matrix>)
      requires KindsPresent(ms)
      ensures Valid()
      ensures selected == Idle && matrices == ms && requests == []
    {
      selected := Idle;
      matrices := ms;
      requests := [];
    }

    /** Commits the selection when it is complete: resolves the matrix node,
        connects the source to the target when a matrix node was found, and
        resets the selection whatever the lookup outcome. */
    method Commit(outcome: Lookup)
      requires Valid()
      modifies this
      ensures Valid() && matrices == old(matrices)
      ensures old(PhaseOf(selected)) == SourceChosen ==>
        selected == Idle &&
        requests == old(requests) + CommitRequests(old(matrices[selected.matrix].path),
                                                   old(selected.matrix), old(selected.source),
                                                   old(selected.target), outcome)
      ensures old(PhaseOf(selected)) != SourceChosen ==>
        selected == old(selected) && requests == old(requests)
      ensures old(PhaseOf(selected)) == SourceChosen ==> Feedback.AllDark(selected, matrices)
    {
      if selected.source != Unset && selected.target != Unset && selected.matrix != Unset {
        Feedback.IdleAllDark(matrices);
        var m := matrices[selected.matrix];
        requests := requests + [Resolve(m.path)];
        if outcome == Found {
          requests := requests + [Connect(selected.matrix, selected.target, [selected.source])];
        }
        selected := Idle;
      }
    }

    /** Take: commits a complete selection, and does nothing otherwise. */
    method DoTake(outcome: Lookup)
      requires Valid()
      modifies this
      ensures Valid() && matrices == old(matrices)
      ensures old(PhaseOf(selected)) == SourceChosen ==>
        selected == Idle &&
        requests == old(requests) + CommitRequests(old(matrices[selected.matrix].path),
                                                   old(selected.matrix), old(selected.source),
                                                   old(selected.target), outcome)
      ensures old(PhaseOf(selected)) != SourceChosen ==>
        selected == old(selected) && requests == old(requests)
    {
      if selected.target != Unset && selected.source != Unset && selected.matrix != Unset {
        Commit(outcome);
      }
    }

    /** Clear: forgets the whole selection and leaves the routing alone. */
    method DoClear()
      requires Valid()
      modifies this
      ensures Valid()
      ensures selected == Idle
      ensures matrices == old(matrices) && requests == old(requests)
      ensures Feedback.AllDark(selected, matrices)
    {
      selected := Idle;
      Feedback.IdleAllDark(matrices);
    }

    /** Undo: pops two entries of the selected output's fallback history and
        commits the older one as the source, when there are two to pop. */
    method DoUndo(outcome: Lookup)
      requires Valid()
      requires TargetExists(selected, matrices)
      modifies this
      ensures Valid()
      ensures old(UndoEntry(matrices[selected.matrix].outputs[selected.target]).None?) ==>
        selected == old(selected) && matrices == old(matrices) && requests == old(requests)
      ensures old(UndoEntry(matrices[selected.matrix].outputs[selected.target]).Some?) ==>
        var m, t := old(selected.matrix), old(selected.target);
        var fb := old(matrices[m].outputs[t].fallback);
        var restored := old(UndoEntry(matrices[m].outputs[t]).value);
        matrices == WithFallback(old(matrices), m, t, fb[..|fb| - 2]) &&
        (restored != Unset ==>
           selected == Idle &&
           requests == old(requests) + CommitRequests(old(matrices[m].path), m, restored, t, outcome)) &&
        (restored == Unset ==>
           selected == old(selected).(source := Unset) && requests == old(requests))
      ensures old(UndoEntry(matrices[selected.matrix].outputs[selected.target]).Some?) &&
              old(Variables.DisplayDefined(selected, matrices)) ==>
        var m, t := old(selected.matrix), old(selected.target);
        var restored := old(UndoEntry(matrices[m].outputs[t]).value);
        restored != Unset && selected == Idle && 0 <= restored < |matrices[m].inputs| &&
        matrices[m].inputs[restored].name == old(Variables.SelectionStrings(selected, matrices)).undoSource
    {
      var fb := matrices[selected.matrix].outputs[selected.target].fallback;
      if 0 <= |fb| - 2 {
        ghost var before := matrices;
        var _ := PopFallback();
        assert fb[..|fb| - 1][..|fb| - 2] == fb[..|fb| - 2];
        var restored := PopFallback();
        WithFallbackTwice(before, selected.matrix, selected.target, fb[..|fb| - 1], fb[..|fb| - 2]);
        assert matrices == WithFallback(before, selected.matrix, selected.target, fb[..|fb| - 2]);
        selected := selected.(source := restored);
        Commit(outcome);
      }
    }

    /** Removes and returns the newest entry of the selected output's fallback history. */
    method PopFallback() returns (x: int)
      requires Valid()
      requires TargetExists(selected, matrices)
      requires matrices[selected.matrix].outputs[selected.target].fallback != []
      modifies this`matrices
      ensures Valid()
      ensures var fb := old(matrices[selected.matrix].outputs[selected.target].fallback);
        x == fb[|fb| - 1] &&
        matrices == WithFallback(old(matrices), selected.matrix, selected.target, fb[..|fb| - 1])
      ensures TargetExists(selected, matrices)
    {
      var fb := matrices[selected.matrix].outputs[selected.target].fallback;
      x := fb[|fb| - 1];
      matrices := WithFallback(matrices, selected.matrix, selected.target, fb[..|fb| - 1]);
    }

    /** Select source `source` on the matrix of kind `k`; `take` is the
        auto-take setting, under which an accepted source is committed at once. */
    method SetSelectedSource(k: MatrixKind, source: int, take: bool, outcome: Lookup)
      requires Valid()
      modifies this
      ensures Valid() && matrices == old(matrices)
      ensures source == Unset || Index(k) != old(selected.matrix) ==>
        selected == old(selected) && requests == old(requests)
      ensures source != Unset && Index(k) == old(selected.matrix) && !take ==>
        selected == old(selected).(source := source) && requests == old(requests)
      ensures source != Unset && Index(k) == old(selected.matrix) && take ==>
        selected == Idle &&
        requests == old(requests) + CommitRequests(matrices[Index(k)].path, Index(k), source,
                                                   old(selected.target), outcome)
    {
      if source != Unset && Index(k) == selected.matrix {
        selected := selected.(source := source);
        if take {
          Commit(outcome);
        }
      }
    }

    /** Select target `target` on the matrix of kind `k`. The pending source is
        dropped in every case; an unset target leaves matrix and target alone. */
    method SetSelectedTarget(k: MatrixKind, target: int)
      requires Valid()
      modifies this
      ensures Valid() && matrices == old(matrices) && requests == old(requests)
      ensures target != Unset ==> selected == Selection(Index(k), Unset, target)
      ensures target == Unset ==> selected == old(selected).(source := Unset)
    {
      if target != Unset {
        selected := selected.(target := target, matrix := Index(k));
      }
      selected := selected.(source := Unset);
    }
  }
}
