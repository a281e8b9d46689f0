// The panel's text variables: the three strings that describe the selected
// target, and the table of per-input and per-output variables defined once
// for the whole topology.

module Variables {
  import opened Topology
  import Feedback

  /** The three selection strings: selected_target, selected_target_source
      and selected_target_undo_source. */
  datatype SelectionDisplay = SelectionDisplay(target: string, targetSource: string, undoSource: string)

  const Blank: SelectionDisplay := SelectionDisplay("?", "?", "")

  /** The name of an optional input, or `fallback` when there is none. */
  function NameOr(i: Option<Input>, fallback: string): string {
    match i
    case Some(inp) => inp.name
    case None => fallback
  }

  /** The undo-source lookup indexes the inputs without a guard: the entry one
      undo step back must name an existing input. */
  predicate UndoInputExists(m: Matrix, o: Output) {
    UndoEntry(o).Some? ==> 0 <= UndoEntry(o).value < |m.inputs|
  }

  /** What computing the selection strings needs: with matrix and target set,
      the output exists and its undo entry names an input. */
  predicate DisplayDefined(sel: Selection, ms: seq<Matrix>) {
    sel.matrix != Unset && sel.target != Unset ==>
      TargetExists(sel, ms) && UndoInputExists(ms[sel.matrix], ms[sel.matrix].outputs[sel.target])
  }

  /** The selection strings, as recomputed after every change of the selection. */
  function SelectionStrings(sel: Selection, ms: seq<Matrix>): (r: SelectionDisplay)
    requires DisplayDefined(sel, ms)
    ensures sel.matrix == Unset || sel.target == Unset ==> r == Blank
    ensures sel.matrix != Unset && sel.target != Unset ==>
      r.target == ms[sel.matrix].outputs[sel.target].name &&
      r.targetSource == NameOr(InputAt(ms[sel.matrix], Feedback.LiveRoute(sel, ms)), "?")
    ensures r.undoSource ==
      if Feedback.UndoPossible(sel, ms)
      then ms[sel.matrix].inputs[UndoEntry(ms[sel.matrix].outputs[sel.target]).value].name
      else ""
  {
    if sel.matrix != Unset && sel.target != Unset then
      var m := ms[sel.matrix];
      var selected := SelectedOutput(sel, ms);
      var routed := if selected.Some? then InputAt(m, selected.value.route) else None;
      var fb := m.outputs[sel.target].fallback;
      SelectionDisplay(
        if selected.Some? then selected.value.name else "?",
        NameOr(routed, "?"),
        if |fb| >= 2 then m.inputs[fb[|fb| - 2]].name else "")
    else
      Blank
  }

  /** The undo-source string names the input that an Undo would restore. */
  lemma UndoSourceNamesUndoEntry(sel: Selection, ms: seq<Matrix>)
    requires DisplayDefined(sel, ms)
    requires sel.matrix != Unset && sel.target != Unset
    requires UndoEntry(ms[sel.matrix].outputs[sel.target]).Some?
    ensures Feedback.UndoPossible(sel, ms)
    ensures SelectionStrings(sel, ms).undoSource ==
            ms[sel.matrix].inputs[UndoEntry(ms[sel.matrix].outputs[sel.target]).value].name
  {
  }

  /** A tallied source is the one the selected-target-source string names. */
  lemma TalliedSourceIsDisplayed(sel: Selection, ms: seq<Matrix>, k: MatrixKind, i: int)
    requires Index(k) < |ms| && DisplayDefined(sel, ms)
    requires Feedback.SourceTallied(sel, ms, k, i)
    requires 0 <= i < |ms[Index(k)].inputs|
    ensures SelectionStrings(sel, ms).targetSource == ms[Index(k)].inputs[i].name
  {
  }

  // ---------------------------------------------------------------------
  // Decimal rendering of indices inside variable names and identifiers.

  function Digit(d: nat): (c: char)
    requires d < 10
    ensures '0' <= c <= '9' && c as int == '0' as int + d
  {
    (('0' as int) + d) as char
  }

  function Decimal(n: nat): (s: string)
    ensures 1 <= |s|
    ensures |s| == 1 <==> n < 10
    ensures forall j :: 0 <= j < |s| ==> '0' <= s[j] <= '9'
  {
    if n < 10 then [Digit(n)] else Decimal(n / 10) + [Digit(n % 10)]
  }

  function IntText(n: int): (s: string)
    ensures 1 <= |s| && '0' <= s[|s| - 1] <= '9'
    ensures s[0] == '-' <==> n < 0
    ensures forall j :: 0 <= j < |s| ==> s[j] != '_'
  {
    if n < 0 then "-" + Decimal(-n) else Decimal(n)
  }

  /** Different numbers are written differently. */
  lemma {:induction false} DecimalInjective(a: nat, b: nat)
    requires Decimal(a) == Decimal(b)
    ensures a == b
    decreases a
  {
    if 10 <= a && 10 <= b {
      var da, db := Decimal(a), Decimal(b);
      assert da[..|da| - 1] == Decimal(a / 10);
      assert db[..|db| - 1] == Decimal(b / 10);
      DecimalInjective(a / 10, b / 10);
      assert Digit(a % 10) == da[|da| - 1] == db[|db| - 1] == Digit(b % 10);
    } else if a < 10 && b < 10 {
      assert Digit(a) == Decimal(a)[0] == Decimal(b)[0] == Digit(b);
    }
  }

  lemma IntTextInjective(a: int, b: int)
    requires IntText(a) == IntText(b)
    ensures a == b
  {
    if a < 0 && b < 0 {
      assert IntText(a)[1..] == Decimal(-a);
      assert IntText(b)[1..] == Decimal(-b);
      DecimalInjective(-a, -b);
    } else if 0 <= a && 0 <= b {
      DecimalInjective(a, b);
    } else {
      assert false;
    }
  }

  // ---------------------------------------------------------------------
  // The variable table.

  datatype VariableDef = VariableDef(name: string, id: string)

  function InputKey(tag: string, id: int): string {
    "input_" + tag + "_" + IntText(id)
  }

  function OutputKey(tag: string, id: int): string {
    "output_" + tag + "_" + IntText(id)
  }

  function RoutedKey(tag: string, id: int): string {
    OutputKey(tag, id) + "_input"
  }

  function InputDef(tag: string, inp: Input): VariableDef {
    VariableDef("Label of input " + tag + " " + IntText(inp.id), InputKey(tag, inp.id))
  }

  function OutputDef(tag: string, o: Output): VariableDef {
    VariableDef("Label of output " + tag + " " + IntText(o.id), OutputKey(tag, o.id))
  }

  function RoutedDef(tag: string, o: Output): VariableDef {
    VariableDef("Label of input routed to " + tag + " output " + IntText(o.id), RoutedKey(tag, o.id))
  }

  /** The three selection variables, defined whatever the topology. */
  function SelectionDefs(): seq<VariableDef> {
    [ VariableDef("Label of selected destination", "selected_target"),
      VariableDef("Label of input routed to selection", "selected_target_source"),
      VariableDef("Label of undo source", "selected_target_undo_source") ]
  }

  /** The value of an output's routed-input variable. */
  function RoutedName(m: Matrix, route: Option<int>): (r: string)
    ensures InputAt(m, route).None? ==> r == "?"
    ensures InputAt(m, route).Some? ==> r == m.inputs[route.value].name
  {
    NameOr(InputAt(m, route), "?")
  }

  function InputDefs(tag: string, ins: seq<Input>): seq<VariableDef>
    decreases |ins|
  {
    if ins == [] then []
    else
      var last := ins[|ins| - 1];
      InputDefs(tag, ins[..|ins| - 1]) + (if last.active then [InputDef(tag, last)] else [])
  }

  function OutputDefs(tag: string, outs: seq<Output>): seq<VariableDef>
    decreases |outs|
  {
    if outs == [] then []
    else
      var last := outs[|outs| - 1];
      OutputDefs(tag, outs[..|outs| - 1]) +
        (if last.active then [OutputDef(tag, last), RoutedDef(tag, last)] else [])
  }

  function InputDefsOf(ms: seq<Matrix>): seq<VariableDef>
    decreases |ms|
  {
    if ms == [] then []
    else InputDefsOf(ms[..|ms| - 1]) + InputDefs(ms[|ms| - 1].name, ms[|ms| - 1].inputs)
  }

  function OutputDefsOf(ms: seq<Matrix>): seq<VariableDef>
    decreases |ms|
  {
    if ms == [] then []
    else OutputDefsOf(ms[..|ms| - 1]) + OutputDefs(ms[|ms| - 1].name, ms[|ms| - 1].outputs)
  }

  function InputValues(acc: map<string, string>, tag: string, ins: seq<Input>): map<string, string>
    decreases |ins|
  {
    if ins == [] then acc
    else
      var last := ins[|ins| - 1];
      var before := InputValues(acc, tag, ins[..|ins| - 1]);
      if last.active then before[InputKey(tag, last.id) := last.name] else before
  }

  function OutputValues(acc: map<string, string>, m: Matrix, outs: seq<Output>): map<string, string>
    decreases |outs|
  {
    if outs == [] then acc
    else
      var last := outs[|outs| - 1];
      var before := OutputValues(acc, m, outs[..|outs| - 1]);
      if last.active then
        before[OutputKey(m.name, last.id) := last.name][RoutedKey(m.name, last.id) := RoutedName(m, last.route)]
      else before
  }

  function InputValuesOf(acc: map<string, string>, ms: seq<Matrix>): map<string, string>
    decreases |ms|
  {
    if ms == [] then acc
    else InputValues(InputValuesOf(acc, ms[..|ms| - 1]), ms[|ms| - 1].name, ms[|ms| - 1].inputs)
  }

  function OutputValuesOf(acc: map<string, string>, ms: seq<Matrix>): map<string, string>
    decreases |ms|
  {
    if ms == [] then acc
    else OutputValues(OutputValuesOf(acc, ms[..|ms| - 1]), ms[|ms| - 1], ms[|ms| - 1].outputs)
  }

  /** All variable definitions: inputs of every matrix, then outputs, then the selection. */
  function Definitions(ms: seq<Matrix>): seq<VariableDef> {
    InputDefsOf(ms) + OutputDefsOf(ms) + SelectionDefs()
  }

  /** The initial values of the per-matrix variables. */
  function Values(ms: seq<Matrix>): map<string, string> {
    OutputValuesOf(InputValuesOf(map[], ms), ms)
  }

  /** Defines the variable table and computes its values and the selection strings. */
  method InitVariables(ms: seq<Matrix>, sel: Selection)
    returns (defs: seq<VariableDef>, values: map<string, string>, shown: SelectionDisplay)
    requires DisplayDefined(sel, ms)
    ensures defs == Definitions(ms)
    ensures values == Values(ms)
    ensures shown == SelectionStrings(sel, ms)
  {
    defs, values := DefineInputs(ms);
    defs, values := DefineOutputs(ms, defs, values);
    defs := defs + SelectionDefs();
    shown := SelectionStrings(sel, ms);
  }

  /** The first loop nest: one variable per active input of every matrix. */
  method DefineInputs(ms: seq<Matrix>) returns (defs: seq<VariableDef>, values: map<string, string>)
    ensures defs == InputDefsOf(ms)
    ensures values == InputValuesOf(map[], ms)
  {
    defs := [];
    values := map[];
    var i := 0;
    while i < |ms|
      invariant 0 <= i <= |ms|
      invariant defs == InputDefsOf(ms[..i])
      invariant values == InputValuesOf(map[], ms[..i])
    {
      defs, values := DefineMatrixInputs(ms[i], defs, values);
      assert ms[..i + 1][..i] == ms[..i];
      i := i + 1;
    }
    assert ms[..|ms|] == ms;
  }

  /** The inner loop of the first nest, over the inputs of one matrix. */
  method DefineMatrixInputs(m: Matrix, defsIn: seq<VariableDef>, valuesIn: map<string, string>)
    returns (defs: seq<VariableDef>, values: map<string, string>)
    ensures defs == defsIn + InputDefs(m.name, m.inputs)
    ensures values == InputValues(valuesIn, m.name, m.inputs)
  {
    defs, values := defsIn, valuesIn;
    var ins := m.inputs;
    var j := 0;
    while j < |ins|
      invariant 0 <= j <= |ins|
      invariant defs == defsIn + InputDefs(m.name, ins[..j])
      invariant values == InputValues(valuesIn, m.name, ins[..j])
    {
      var input := ins[j];
      assert ins[..j + 1][..j] == ins[..j];
      if input.active {
        defs := defs + [InputDef(m.name, input)];
        values := values[InputKey(m.name, input.id) := input.name];
      }
      j := j + 1;
    }
    assert ins[..|ins|] == ins;
  }

  /** The second loop nest: two variables per active output of every matrix,
      appended to the definitions and values so far. */
  method DefineOutputs(ms: seq<Matrix>, defsIn: seq<VariableDef>, valuesIn: map<string, string>)
    returns (defs: seq<VariableDef>, values: map<string, string>)
    ensures defs == defsIn + OutputDefsOf(ms)
    ensures values == OutputValuesOf(valuesIn, ms)
  {
    defs, values := defsIn, valuesIn;
    var i := 0;
    while i < |ms|
      invariant 0 <= i <= |ms|
      invariant defs == defsIn + OutputDefsOf(ms[..i])
      invariant values == OutputValuesOf(valuesIn, ms[..i])
    {
      defs, values := DefineMatrixOutputs(ms[i], defs, values);
      assert ms[..i + 1][..i] == ms[..i];
      i := i + 1;
    }
    assert ms[..|ms|] == ms;
  }

  /** The inner loop of the second nest, over the outputs of one matrix. */
  method DefineMatrixOutputs(m: Matrix, defsIn: seq<VariableDef>, valuesIn: map<string, string>)
    returns (defs: seq<VariableDef>, values: map<string, string>)
    ensures defs == defsIn + OutputDefs(m.name, m.outputs)
    ensures values == OutputValues(valuesIn, m, m.outputs)
  {
    defs, values := defsIn, valuesIn;
    var outs := m.outputs;
    var j := 0;
    while j < |outs|
      invariant 0 <= j <= |outs|
      invariant defs == defsIn + OutputDefs(m.name, outs[..j])
      invariant values == OutputValues(valuesIn, m, outs[..j])
    {
      var output := outs[j];
      assert outs[..j + 1][..j] == outs[..j];
      if output.active {
        defs := defs + [OutputDef(m.name, output)];
        values := values[OutputKey(m.name, output.id) := output.name];
        defs := defs + [RoutedDef(m.name, output)];
        values := values[RoutedKey(m.name, output.id) := RoutedName(m, output.route)];
      }
      j := j + 1;
    }
    assert outs[..|outs|] == outs;
  }

  // ---------------------------------------------------------------------
  // How many variables the table holds, counted input by input.

  function ActiveInputs(ins: seq<Input>): nat {
    if ins == [] then 0 else (if ins[0].active then 1 else 0) + ActiveInputs(ins[1..])
  }

  function ActiveOutputs(outs: seq<Output>): nat {
    if outs == [] then 0 else (if outs[0].active then 1 else 0) + ActiveOutputs(outs[1..])
  }

  function ActiveInputsOf(ms: seq<Matrix>): nat {
    if ms == [] then 0 else ActiveInputs(ms[0].inputs) + ActiveInputsOf(ms[1..])
  }

  function ActiveOutputsOf(ms: seq<Matrix>): nat {
    if ms == [] then 0 else ActiveOutputs(ms[0].outputs) + ActiveOutputsOf(ms[1..])
  }

  lemma {:induction false} ActiveInputsSnoc(ins: seq<Input>, x: Input)
    ensures ActiveInputs(ins + [x]) == ActiveInputs(ins) + (if x.active then 1 else 0)
    decreases |ins|
  {
    if ins == [] {
      assert ins + [x] == [x];
    } else {
      assert (ins + [x])[1..] == ins[1..] + [x];
      ActiveInputsSnoc(ins[1..], x);
    }
  }

  lemma {:induction false} ActiveOutputsSnoc(outs: seq<Output>, x: Output)
    ensures ActiveOutputs(outs + [x]) == ActiveOutputs(outs) + (if x.active then 1 else 0)
    decreases |outs|
  {
    if outs == [] {
      assert outs + [x] == [x];
    } else {
      assert (outs + [x])[1..] == outs[1..] + [x];
      ActiveOutputsSnoc(outs[1..], x);
    }
  }

  lemma {:induction false} ActiveOfSnoc(ms: seq<Matrix>, x: Matrix)
    ensures ActiveInputsOf(ms + [x]) == ActiveInputsOf(ms) + ActiveInputs(x.inputs)
    ensures ActiveOutputsOf(ms + [x]) == ActiveOutputsOf(ms) + ActiveOutputs(x.outputs)
    decreases |ms|
  {
    if ms == [] {
      assert ms + [x] == [x];
    } else {
      assert (ms + [x])[1..] == ms[1..] + [x];
      ActiveOfSnoc(ms[1..], x);
    }
  }

  /** One definition per active input, none for an inactive one. */
  lemma {:induction false} InputDefsCount(tag: string, ins: seq<Input>)
    ensures |InputDefs(tag, ins)| == ActiveInputs(ins)
    decreases |ins|
  {
    if ins != [] {
      var pre, last := ins[..|ins| - 1], ins[|ins| - 1];
      assert ins == pre + [last];
      InputDefsCount(tag, pre);
      ActiveInputsSnoc(pre, last);
    }
  }

  /** Exactly two definitions per active output, none for an inactive one. */
  lemma {:induction false} OutputDefsCount(tag: string, outs: seq<Output>)
    ensures |OutputDefs(tag, outs)| == 2 * ActiveOutputs(outs)
    decreases |outs|
  {
    if outs != [] {
      var pre, last := outs[..|outs| - 1], outs[|outs| - 1];
      assert outs == pre + [last];
      OutputDefsCount(tag, pre);
      ActiveOutputsSnoc(pre, last);
    }
  }

  /** The table holds one variable per active input, two per active output,
      and the three selection variables last. */
  lemma {:induction false} DefinitionsCount(ms: seq<Matrix>)
    ensures |Definitions(ms)| == ActiveInputsOf(ms) + 2 * ActiveOutputsOf(ms) + 3
    ensures Definitions(ms)[|Definitions(ms)| - 3..] == SelectionDefs()
  {
    DefsOfCount(ms);
  }

  lemma {:induction false} DefsOfCount(ms: seq<Matrix>)
    ensures |InputDefsOf(ms)| == ActiveInputsOf(ms)
    ensures |OutputDefsOf(ms)| == 2 * ActiveOutputsOf(ms)
    decreases |ms|
  {
    if ms != [] {
      var pre, last := ms[..|ms| - 1], ms[|ms| - 1];
      assert ms == pre + [last];
      DefsOfCount(pre);
      ActiveOfSnoc(pre, last);
      InputDefsCount(last.name, last.inputs);
      OutputDefsCount(last.name, last.outputs);
    }
  }

  // ---------------------------------------------------------------------
  // Every per-matrix definition receives a value, and no value is left without one.

  function Ids(ds: seq<VariableDef>): set<string> {
    set d | d in ds :: d.id
  }

  lemma IdsAppend(a: seq<VariableDef>, b: seq<VariableDef>)
    ensures Ids(a + b) == Ids(a) + Ids(b)
  {
  }

  lemma {:induction false} InputValuesKeys(acc: map<string, string>, tag: string, ins: seq<Input>)
    ensures InputValues(acc, tag, ins).Keys == acc.Keys + Ids(InputDefs(tag, ins))
    decreases |ins|
  {
    if ins != [] {
      var pre, last := ins[..|ins| - 1], ins[|ins| - 1];
      InputValuesKeys(acc, tag, pre);
      IdsAppend(InputDefs(tag, pre), if last.active then [InputDef(tag, last)] else []);
    }
  }

  lemma {:induction false} OutputValuesKeys(acc: map<string, string>, m: Matrix, outs: seq<Output>)
    ensures OutputValues(acc, m, outs).Keys == acc.Keys + Ids(OutputDefs(m.name, outs))
    decreases |outs|
  {
    if outs != [] {
      var pre, last := outs[..|outs| - 1], outs[|outs| - 1];
      OutputValuesKeys(acc, m, pre);
      IdsAppend(OutputDefs(m.name, pre),
                if last.active then [OutputDef(m.name, last), RoutedDef(m.name, last)] else []);
    }
  }

  lemma {:induction false} ValuesOfKeys(acc: map<string, string>, ms: seq<Matrix>)
    ensures InputValuesOf(acc, ms).Keys == acc.Keys + Ids(InputDefsOf(ms))
    ensures OutputValuesOf(acc, ms).Keys == acc.Keys + Ids(OutputDefsOf(ms))
    decreases |ms|
  {
    if ms != [] {
      var pre, last := ms[..|ms| - 1], ms[|ms| - 1];
      ValuesOfKeys(acc, pre);
      InputValuesKeys(InputValuesOf(acc, pre), last.name, last.inputs);
      OutputValuesKeys(OutputValuesOf(acc, pre), last, last.outputs);
      IdsAppend(InputDefsOf(pre), InputDefs(last.name, last.inputs));
      IdsAppend(OutputDefsOf(pre), OutputDefs(last.name, last.outputs));
    }
  }

  /** The initial values are keyed by exactly the per-matrix variable ids. */
  lemma ValuesMatchDefinitions(ms: seq<Matrix>)
    ensures Values(ms).Keys == Ids(InputDefsOf(ms) + OutputDefsOf(ms))
  {
    ValuesOfKeys(map[], ms);
    ValuesOfKeys(InputValuesOf(map[], ms), ms);
    IdsAppend(InputDefsOf(ms), OutputDefsOf(ms));
  }

  // ---------------------------------------------------------------------
  // Output variable ids determine the matrix name and the output id: the
  // decimal id never holds '_', so the last '_' of an id ends the matrix name.

  /** The index of the last '_' in `s`, or -1 when there is none. */
  function LastUnderscore(s: string): int
    decreases |s|
  {
    if s == [] then -1
    else if s[|s| - 1] == '_' then |s| - 1
    else LastUnderscore(s[..|s| - 1])
  }

  lemma {:induction false} LastUnderscoreBefore(p: string, x: string)
    requires forall j :: 0 <= j < |x| ==> x[j] != '_'
    ensures LastUnderscore(p + "_" + x) == |p|
    decreases |x|
  {
    var s := p + "_" + x;
    if x == [] {
      assert s == p + "_";
    } else {
      assert s[..|s| - 1] == p + "_" + x[..|x| - 1];
      LastUnderscoreBefore(p, x[..|x| - 1]);
    }
  }

  lemma OutputKeyInjective(t1: string, a: int, t2: string, b: int)
    ensures OutputKey(t1, a) == OutputKey(t2, b) <==> t1 == t2 && a == b
  {
    var x, y := OutputKey(t1, a), OutputKey(t2, b);
    if x == y {
      LastUnderscoreBefore("output_" + t1, IntText(a));
      LastUnderscoreBefore("output_" + t2, IntText(b));
      assert |t1| == |t2|;
      assert t1 == x[7..7 + |t1|];
      assert t2 == y[7..7 + |t2|];
      assert IntText(a) == x[8 + |t1|..];
      assert IntText(b) == y[8 + |t2|..];
      IntTextInjective(a, b);
    }
  }

  lemma RoutedKeyInjective(t1: string, a: int, t2: string, b: int)
    ensures RoutedKey(t1, a) == RoutedKey(t2, b) <==> t1 == t2 && a == b
  {
    var x, y := RoutedKey(t1, a), RoutedKey(t2, b);
    if x == y {
      assert x[..|x| - 6] == OutputKey(t1, a);
      assert y[..|y| - 6] == OutputKey(t2, b);
      OutputKeyInjective(t1, a, t2, b);
    }
  }

  /** An output's name variable and any routed-input variable never share an id. */
  lemma OutputKeyNotRouted(t1: string, a: int, t2: string, b: int)
    ensures OutputKey(t1, a) != RoutedKey(t2, b)
  {
    var x, y := OutputKey(t1, a), RoutedKey(t2, b);
    assert x[|x| - 1] == IntText(a)[|IntText(a)| - 1];
    assert y[|y| - 1] == 't';
  }

  // ---------------------------------------------------------------------
  // Each active output's two variables hold its name and the name of the
  // input at its route (or '?'), provided matrix names are distinct and
  // output ids are distinct within a matrix.

  predicate DistinctOutputIds(m: Matrix) {
    forall j, j' :: 0 <= j < j' < |m.outputs| ==> m.outputs[j].id != m.outputs[j'].id
  }

  predicate DistinctNames(ms: seq<Matrix>) {
    forall a, b :: 0 <= a < b < |ms| ==> ms[a].name != ms[b].name
  }

  /** Writing the variables of outputs that do not own `key` leaves `key` alone. */
  lemma {:induction false} OutputValuesFrame(acc: map<string, string>, m: Matrix, outs: seq<Output>, key: string)
    requires forall j :: 0 <= j < |outs| ==>
               key != OutputKey(m.name, outs[j].id) && key != RoutedKey(m.name, outs[j].id)
    ensures key in OutputValues(acc, m, outs) <==> key in acc
    ensures key in acc ==> OutputValues(acc, m, outs)[key] == acc[key]
    decreases |outs|
  {
    if outs != [] {
      OutputValuesFrame(acc, m, outs[..|outs| - 1], key);
    }
  }

  /** Within one matrix's output loop, an active output's variables end with its
      name and its routed input's name, whatever was there before. */
  lemma {:induction false} OutputValueAt(acc: map<string, string>, m: Matrix, outs: seq<Output>, k: int)
    requires 0 <= k < |outs| && outs[k].active
    requires forall j, j' :: 0 <= j < j' < |outs| ==> outs[j].id != outs[j'].id
    ensures OutputKey(m.name, outs[k].id) in OutputValues(acc, m, outs)
    ensures OutputValues(acc, m, outs)[OutputKey(m.name, outs[k].id)] == outs[k].name
    ensures RoutedKey(m.name, outs[k].id) in OutputValues(acc, m, outs)
    ensures OutputValues(acc, m, outs)[RoutedKey(m.name, outs[k].id)] == RoutedName(m, outs[k].route)
    decreases |outs|
  {
    var pre, last := outs[..|outs| - 1], outs[|outs| - 1];
    OutputKeyNotRouted(m.name, outs[k].id, m.name, outs[k].id);
    if k < |outs| - 1 {
      OutputValueAt(acc, m, pre, k);
      OutputKeyInjective(m.name, last.id, m.name, outs[k].id);
      RoutedKeyInjective(m.name, last.id, m.name, outs[k].id);
      OutputKeyNotRouted(m.name, last.id, m.name, outs[k].id);
      OutputKeyNotRouted(m.name, outs[k].id, m.name, last.id);
    }
  }

  lemma {:induction false} OutputValuesOfAt(acc: map<string, string>, ms: seq<Matrix>, i: int, k: int)
    requires 0 <= i < |ms| && 0 <= k < |ms[i].outputs| && ms[i].outputs[k].active
    requires DistinctNames(ms) && forall a :: 0 <= a < |ms| ==> DistinctOutputIds(ms[a])
    ensures OutputKey(ms[i].name, ms[i].outputs[k].id) in OutputValuesOf(acc, ms)
    ensures OutputValuesOf(acc, ms)[OutputKey(ms[i].name, ms[i].outputs[k].id)] == ms[i].outputs[k].name
    ensures RoutedKey(ms[i].name, ms[i].outputs[k].id) in OutputValuesOf(acc, ms)
    ensures OutputValuesOf(acc, ms)[RoutedKey(ms[i].name, ms[i].outputs[k].id)] ==
            RoutedName(ms[i], ms[i].outputs[k].route)
    decreases |ms|
  {
    var pre, last := ms[..|ms| - 1], ms[|ms| - 1];
    if i == |ms| - 1 {
      OutputValueAt(OutputValuesOf(acc, pre), last, last.outputs, k);
    } else {
      OutputValuesOfAt(acc, pre, i, k);
      var t, id := ms[i].name, ms[i].outputs[k].id;
      assert t != last.name;
      forall j | 0 <= j < |last.outputs|
        ensures OutputKey(t, id) != OutputKey(last.name, last.outputs[j].id)
        ensures OutputKey(t, id) != RoutedKey(last.name, last.outputs[j].id)
        ensures RoutedKey(t, id) != OutputKey(last.name, last.outputs[j].id)
        ensures RoutedKey(t, id) != RoutedKey(last.name, last.outputs[j].id)
      {
        OutputKeyInjective(t, id, last.name, last.outputs[j].id);
        RoutedKeyInjective(t, id, last.name, last.outputs[j].id);
        OutputKeyNotRouted(t, id, last.name, last.outputs[j].id);
        OutputKeyNotRouted(last.name, last.outputs[j].id, t, id);
      }
      OutputValuesFrame(OutputValuesOf(acc, pre), last, last.outputs, OutputKey(t, id));
      OutputValuesFrame(OutputValuesOf(acc, pre), last, last.outputs, RoutedKey(t, id));
    }
  }

  /** In the value table the initialisation builds, every active output's
      `output_<matrix>_<id>` holds its name and `output_<matrix>_<id>_input`
      the name of the input at its route, or '?' when there is none. */
  lemma OutputVariablesInTable(ms: seq<Matrix>, i: int, k: int)
    requires 0 <= i < |ms| && 0 <= k < |ms[i].outputs| && ms[i].outputs[k].active
    requires DistinctNames(ms) && forall a :: 0 <= a < |ms| ==> DistinctOutputIds(ms[a])
    ensures OutputKey(ms[i].name, ms[i].outputs[k].id) in Values(ms)
    ensures Values(ms)[OutputKey(ms[i].name, ms[i].outputs[k].id)] == ms[i].outputs[k].name
    ensures RoutedKey(ms[i].name, ms[i].outputs[k].id) in Values(ms)
    ensures Values(ms)[RoutedKey(ms[i].name, ms[i].outputs[k].id)] ==
            (match InputAt(ms[i], ms[i].outputs[k].route)
             case Some(inp) => inp.name
             case None => "?")
  {
    OutputValuesOfAt(InputValuesOf(map[], ms), ms, i, k);
  }
}
