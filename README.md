# Operator panel for a Lawo vPro8 routing matrix: selection, take, clear and undo

This project models the control core of a Companion module for a Lawo vPro8
routing matrix. The device has four matrices: video, audio, video quad and audio quad.
Each matrix has inputs and outputs. An output has a live `route` (the input routed
to it) and a `fallback` history used for undo.

The operator composes a change through a selection triple `(matrix, source, target)`,
where `-1` means "nothing chosen". The handlers work on that triple:

- select target and select source;
- take, which commits `(matrix, target, [source])` to the device;
- clear;
- undo, which pops two fallback entries and commits the older one.

The panel shows boolean feedbacks and three display strings derived from the
selection and the selected output. It also defines a table of text variables,
one per active input and two per active output.

The model has four modules:

- `Topology` (`topology.dfy`): matrices, inputs, outputs, the selection triple and its phases (idle, target chosen, source chosen), the input lookup and the undo entry of an output.
- `Actions` (`actions.dfy`): class `Panel` whose fields `selected` and `matrices` the handlers update in place. A ghost `requests` log records what the panel sends to the device: a `Resolve(path)` for the node lookup, and a `Connect(matrix, target, [source])` when a matrix node is found. The lookup outcome (`Found`, `NotFound`, `Rejected`) is a parameter of every committing handler. Each commit is one atomic step: the requests, then the reset of the selection. `Valid()` is the invariant every handler keeps: every kind has its matrix; the selected matrix is a kind's index or `-1`; the target is set exactly when the matrix is; a source is set only with a matrix.
- `Feedback` (`feedback.dfy`): the boolean feedbacks as pure functions of the selection and the matrix table.
- `Variables` (`variables.dfy`): the three selection strings, and variable-table initialisation as imperative loops. Those loops are proved against specification functions, with lemmas on the table's size, its keys and its routed-input values.

Names: the source's `label` fields are called `name` here, because `label` is a
reserved word in Dafny.

Behaviour of the code worth noting:

- Select target with target `-1` keeps both the matrix and the target, and clears only the source.
- Select source accepts any option other than `-1` on the selected matrix. It does not check the option against the matrix's input range.
- Undo whose restored fallback entry is `-1` pops the two entries and sets the source to `-1`. The commit then does nothing, so the selection is not reset.
- The Take feedback is true when the selected output has no route at all, because a set source differs from an undefined route.

## Model

| member | source | states |
|---|---|---|
| Actions.Panel.Commit | src/actions.ts:35-85 | With a complete selection: one node lookup for the selected matrix's path is sent, plus one `Connect(matrix, target, [source])` exactly when a matrix node is found. The selection then ends `(-1,-1,-1)` whatever the outcome, and every feedback is dark. With any slot `-1`: nothing is sent and nothing changes. Routing is never touched. |
| Actions.CommitRequests | src/actions.ts:38-62 | The requests of one commit: the lookup always comes first; the connect for `(m, t, [s])` is second, and only when the lookup found a matrix node. |
| Actions.Panel.DoTake | src/actions.ts:94-111 | Take commits exactly when matrix, source and target are all set. Otherwise it leaves selection, routing and requests untouched. |
| Actions.Panel.DoClear | src/actions.ts:118-138 | Clear sets all three slots to `-1` from any state. It leaves every route, every fallback and the requests alone, and afterwards every feedback is dark. |
| Actions.Panel.DoUndo | src/actions.ts:140-164 | With at least two fallback entries on the selected output: the history shrinks by exactly two and nothing else in the table changes; the older popped entry `r` is committed as the source, so `Connect(matrix, target, [r])` is sent when the node is found and the selection resets. If `r` is `-1`, only the source becomes `-1` and nothing is sent. With fewer than two entries nothing changes. When the selection strings were defined before the undo, `r` is an existing input and its name is the undo-source string shown before the undo. The selected output must exist, because the handler indexes it without a guard. |
| Actions.Panel.PopFallback | src/actions.ts:143-144 | One `pop()` on the selected output's fallback: it returns the newest entry and removes exactly that entry. |
| Actions.Panel.SetSelectedSource | src/actions.ts:175-197 | Ignored when the source is `-1` or the handler's matrix is not the selected one, including when nothing is selected. When accepted with auto-take off: only the source changes and nothing is sent. When accepted with auto-take on: one commit of `(matrix, target, [source])` is sent and the selection ends `(-1,-1,-1)`. |
| Actions.Panel.SetSelectedTarget | src/actions.ts:205-233 | With target not `-1`: the selection becomes `(handler's matrix, -1, target)`, also when re-selecting the same target. With target `-1`: matrix and target stay as they were and only the source is cleared. |
| Feedback.TakePossible | src/feedback.ts:54-60 | True iff the selection is in the source-chosen phase (all three slots set) and the selected output's route is not already that source. |
| Feedback.ClearPossible | src/feedback.ts:72-74 | True iff some slot is set, i.e. false exactly in the all-unset state. |
| Feedback.UndoPossible | src/feedback.ts:85-89 | True iff matrix and target are set and the selected output has an undo entry (at least two fallback entries). |
| Feedback.SourceSelected | src/feedback.ts:112-114 | Lit only when the selected matrix is the button's kind; never lit with nothing selected. The same callback is repeated for the other kinds at src/feedback.ts:136-138, 160-162 and 184-186. |
| Feedback.TargetSelected | src/feedback.ts:208-210 | Lit only when the selected matrix is the button's kind; never lit with nothing selected. The same callback is repeated for the other kinds at src/feedback.ts:232-234, 256-258 and 280-282. |
| Feedback.LiveRoute | src/feedback.ts:305-312 | The route of the selected output. It is None when nothing is selected, when the target is outside the matrix's outputs, or when the output has no route. Whenever the selected output exists, it equals that output's route. |
| Feedback.SourceTallied | src/feedback.ts:304-313 | True iff the selected matrix is the button's kind and the option equals the live route of the selected output. Always false when the output or its route is missing. The same callback is repeated at src/feedback.ts:335-344, 366-375 and 397-406. |
| Feedback.IdleAllDark | src/feedback.ts:54-114 | In the all-unset state every Take, Clear, Undo, selected-source, selected-target and tally feedback is false for every kind and option, whatever the routing. |
| Feedback.SourceSelectedUnique | src/feedback.ts:112-114 | At most one source button, over all kinds and options, is lit at a time. |
| Feedback.TargetSelectedUnique | src/feedback.ts:208-210 | At most one target button, over all kinds and options, is lit at a time. |
| Feedback.SourceTalliedUnique | src/feedback.ts:304-313 | At most one tally button, over all kinds and options, is lit at a time. |
| Feedback.TallyOnlyOnSelectedMatrix | src/feedback.ts:305-311 | The tally of a kind other than the selected matrix's is dark, regardless of routing. |
| Feedback.TalliedSourceNotTakeable | src/feedback.ts:56-59 | When the selected source is also the tallied one, i.e. already live on the target, Take is not offered. |
| Feedback.TakeOrUndoImpliesClear | src/feedback.ts:54-89 | Take and Undo are offered only while Clear is. |
| Topology.InputAt | src/variables.ts:73-75 | The input lookup by route: it gives the input at that index exactly when the route is defined and in range. |
| Topology.SelectedOutput | src/variables.ts:72 | The selected output, present exactly when the target is inside the selected matrix's outputs. |
| Topology.UndoEntry | src/actions.ts:142-144 | The entry one undo step back is present exactly when the history has at least two entries. It is the second newest entry of the history. |
| Variables.SelectionStrings | src/variables.ts:69-94 | With matrix or target unset: `'?'`, `'?'` and `''`. Otherwise: the output's name; the name of the input at the live route, or `'?'`; and the name of the input at the undo entry when Undo is possible, else `''`. The selected output must exist, and its undo entry must name an input, because the code dereferences both without a guard. |
| Variables.UndoSourceNamesUndoEntry | src/variables.ts:81-87 | When the selected output has an undo entry, Undo is possible and the undo-source string names exactly the input at that entry, the one `DoUndo` commits. |
| Variables.TalliedSourceIsDisplayed | src/variables.ts:73-79 | When a tally button is lit for an existing input, the selected-target-source string is that input's name. |
| Variables.RoutedName | src/variables.ts:42-43 | The routed-input value is `'?'` when no input exists at the route. Otherwise it is that input's name. |
| Variables.InitVariables | src/variables.ts:10-67 | The definitions are those of every active input, then two per active output, then the three selection variables, in loop order. The values are those of the per-matrix variables. The selection strings are computed from the current state. |
| Variables.DefineInputs | src/variables.ts:14-25 | The outer input loop yields the input definitions and values of all matrices in order. |
| Variables.DefineMatrixInputs | src/variables.ts:15-24 | The inner input loop appends one definition per active input and none for an inactive one. It writes that input's name under `input_<matrix>_<id>`. |
| Variables.DefineOutputs | src/variables.ts:27-46 | The outer output loop yields the output definitions and values of all matrices in order, appended to those so far. |
| Variables.DefineMatrixOutputs | src/variables.ts:28-45 | The inner output loop appends two definitions per active output: its name and its routed input. It writes the output's name and the routed input's name, or `'?'`. |
| Variables.DefinitionsCount | src/variables.ts:14-61 | The table has exactly (active inputs) + 2 × (active outputs) + 3 definitions, and the last three are the selection variables, whatever the state. |
| Variables.InputDefsCount | src/variables.ts:15-24 | One definition per active input of a matrix, none for an inactive one. |
| Variables.OutputDefsCount | src/variables.ts:28-45 | Exactly two definitions per active output of a matrix, none for an inactive one. |
| Variables.ValuesMatchDefinitions | src/variables.ts:14-46 | Every per-matrix definition gets a value, and every value belongs to a defined per-matrix variable. |
| Variables.OutputValueAt | src/variables.ts:28-45 | Within one matrix whose outputs have distinct ids, each active output's `output_<matrix>_<id>` value is its name and its `output_<matrix>_<id>_input` value is the name of the input at its route, or `'?'`, whatever the table held before. |
| Variables.OutputValuesFrame | src/variables.ts:28-45 | The output loop of one matrix changes no variable other than that matrix's output and routed-input variables. |
| Variables.OutputValuesOfAt | src/variables.ts:27-46 | After the output loops over all matrices, with distinct matrix names and distinct output ids within each matrix, every active output's two variables hold its name and its routed input's name, or `'?'`. |
| Variables.OutputVariablesInTable | src/variables.ts:10-66 | The same for the whole value table the initialisation hands to the host. |
| Variables.OutputKeyInjective | src/variables.ts:32 | Two output variable ids are equal exactly when matrix name and output id are both equal. |
| Variables.RoutedKeyInjective | src/variables.ts:39 | Two routed-input variable ids are equal exactly when matrix name and output id are both equal. |
| Variables.OutputKeyNotRouted | src/variables.ts:32-39 | An output variable id never equals a routed-input variable id. |
| Topology.WellFormedPhase | src/actions.ts:205-212 | Every selection of the shape the handlers keep is idle, has a target chosen, or has a source chosen. |

## Left out

- src/index.ts: connection bootstrap, Ember+ client events, status updates, `configUpdated` and `destroy`. These are I/O and lifecycle code, including the count strings it hard-codes at src/index.ts:25-26.
- src/config.ts: only the UI field list. The auto-take setting is the `take` parameter of `SetSelectedSource`.
- The Ember+ calls (`getElementByPathAsync`, `matrixConnectAsync`, the `QualifiedMatrix` test) are foreign asynchronous library calls. They are abstracted as entries of the ghost request log, with the lookup outcome as a parameter. Whether the connect itself succeeds only reaches a log message, so it is not modelled.
- Asynchrony: the reset runs in a promise `.finally`, so in the source an operator action can interleave with an in-flight commit. Each commit is modelled as one atomic step, so that interleaving is not captured.
- Actions.Panel.DoUndo: the feedback refresh the handler issues before the asynchronous reset completes is not modelled (see the point above).
- Host side effects are not modelled: `self.log`, `checkFeedbacks`, `setVariableDefinitions` and `setVariableValues`. `InitVariables` returns the definitions, values and selection strings instead of handing them to the host.
- Feedback styling, dropdown choices (`getInputChoices` in src/choices.ts, which is not part of this model) and the action and feedback registration tables are not modelled.
- src/state.ts is not part of this model. The model assumes the following about it:
  - the matrix kinds are the indices 0 to 3 (video, audio, video quad, audio quad);
  - `iterateInputs` and `iterateOutputs` visit a matrix's inputs and outputs in order;
  - `getInput(route, m)` is the input at index `route`, if any.
- Route, fallback and name updates come from device subscriptions in src/state.ts. No property here says how `fallback` grows on a successful take.
- Feedback.SourceSelected: the contract states only the necessary condition, that the button's kind is the selected matrix. The exact condition (selected source equals the option, selected matrix equals the kind) is the definition itself; `SourceSelectedUnique` states what it implies.
- Feedback.TargetSelected: the same as for `SourceSelected`, with the target in place of the source; `TargetSelectedUnique` states what it implies.
- Feedback.SourceTallied: the `outputs == undefined` guard (src/feedback.ts:307) cannot fire in the model, because every matrix has an output sequence.
- Unguarded dereferences that throw in the source are preconditions here, not error results: the selected output in `DoUndo`, `TakePossible`, `UndoPossible` and `SelectionStrings`, and the undo-source input in `SelectionStrings`.
- Variables.OutputVariablesInTable: stated for distinct matrix names and distinct output ids within a matrix. With two matrices of the same name, or two outputs of one matrix with the same id, their variable ids coincide and the later write wins.
