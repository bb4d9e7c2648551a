# Finite-state machine with undo and redo, in Dafny

This project models the `FSM` class of the finite-state-machine library (`src/fsm.js`).
An FSM is built from a configuration. The configuration names an `initial` state and a
`states` table. The table maps each state to its `transitions`, and each transition maps an
event to a target state. The machine keeps three mutable fields:

- `statesStack`: the history of visited states. Its top is the current state.
- `tempStack`: the states removed by `undo`, which `redo` can put back.
- `enableRedo`: whether `redo` may use `tempStack`.

The operations are `changeState`, `trigger`, `reset`, `getStates`, `undo`, `redo` and
`clearHistory`. Construction fails when no configuration is given.

Layout:

- `wrappers.dfy` (module `Wrappers`): `Option`, `Result` and `Outcome`. They stand for
  thrown errors and for an absent argument.
- `semantics.dfy` (module `Semantics`): the configuration and the error kinds. Each operation
  is also defined here as a function on a `History` value, the three mutable fields taken
  together. `Step` and `Run` apply a sequence of operations. The lemmas about whole call
  sequences are proved over these functions.
- `fsm.dfy` (module `Fsm`): the class `FSM`. Its `seq` fields are updated in place by its
  methods. Each method states its new fields outright. It also states that its reply and new
  fields equal the `Semantics` function applied to the old fields, so the sequence lemmas
  apply to any run of calls. `Create` models the constructor's "no config" error.
- `scenario.dfy` (module `Scenario`): the on/off switch as a caller. It goes through trigger,
  a refused trigger, undo, redo, a redo refused after a direct change, both forms of
  `getStates`, and `clearHistory` followed by a refused undo. Only the method contracts are
  used.

Modelling choices:

- The configuration is a value that never changes. `keyOrder` lists the keys of `states`
  in enumeration order, each exactly once. The subset type `Config` enforces this.
  `getStates` returns its results in that order.
- Thrown errors become `Fail(kind)` with no change to any field. The kinds are
  `UnknownState`, `UnknownTransition` and `UndefinedCurrentState`. A missing configuration
  gives `NoConfig`. Both JavaScript throws carry the same message, `state isn't exist`; the
  model gives them separate kinds.
- The constructor does not check that `initial` is a configured state. The model does not
  require it either, and it models what the code then does:
  - `reset` calls `changeState(initial)`, so it fails with `UnknownState`. A design where
    `reset` can never fail would differ here; the model follows the code.
  - `trigger` from an unconfigured current state reads `transitions` of `undefined` and
    throws. The model returns `UndefinedCurrentState`.
  - Class invariant `Valid`: every entry of both stacks is a configured state or the initial
    state. So when `initial` is configured, every entry is configured.
- `trigger` passes the target to `changeState`. An event whose target is not configured
  therefore fails with `UnknownState` and changes nothing.
- A failed `changeState` or `trigger` throws before `enableRedo` is cleared. Only a
  successful direct change disables redo.
- `getStates(event)` tests `!event`, so the empty event name lists every state, like a
  missing argument. The argument is an `Option<string>`; `None` and `Some("")` both take
  that branch.

## Model

| member | source | states |
|---|---|---|
| `Fsm.Create` | src/fsm.js:6-15 | No configuration gives `NoConfig`. With a configuration, a fresh valid machine holds that configuration, history `[initial]`, an empty redo stack and redo disabled. |
| `Fsm.FSM.constructor` | src/fsm.js:10-15 | History is exactly `[initial]`, the redo stack is empty, redo is disabled, and the current state is `initial`. |
| `Fsm.FSM.GetState` | src/fsm.js:21-23 | The current state is the top of the history. It is a configured state or the initial state, and it is a configured state whenever `initial` is. |
| `Fsm.FSM.ChangeState` | src/fsm.js:29-36 | Succeeds iff the state is a key of `states`. On success the state is pushed onto the history and becomes current, redo is disabled, and the redo stack is untouched. On failure it returns `UnknownState` and no field changes. |
| `Fsm.FSM.Trigger` | src/fsm.js:42-49 | An unconfigured current state gives `UndefinedCurrentState`. A missing event gives `UnknownTransition`. Succeeds iff the current state has the event and its target is configured. Then the target is pushed, redo is disabled and the redo stack is untouched. On any failure no field changes. |
| `Fsm.FSM.Reset` | src/fsm.js:54-56 | Pushes `initial` on top of the existing history, without truncating it, and disables redo. Succeeds iff `initial` is configured; otherwise returns `UnknownState` and changes nothing. |
| `Fsm.FSM.GetStates` | src/fsm.js:64-77 | With no event or the empty event: every configured state, in key order. With an event: exactly the configured states whose transitions contain it, filtered from the key order. No state appears twice. Nothing is modified. |
| `Fsm.FSM.Undo` | src/fsm.js:84-93 | Returns false and changes nothing iff the history has exactly one entry. Otherwise the top of the history moves onto the redo stack, redo is enabled, and the previous state becomes current. |
| `Fsm.FSM.Redo` | src/fsm.js:100-108 | Returns false and changes nothing iff the redo stack is empty or redo is disabled. Otherwise the top of the redo stack moves back onto the history and becomes current, and redo stays enabled. |
| `Fsm.FSM.ClearHistory` | src/fsm.js:113-116 | History becomes exactly `[initial]` and the redo stack becomes empty. The redo flag and the configuration are unchanged. |
| `Semantics.Step` | src/fsm.js:29-116 | No operation, successful or not, leaves the history empty. |
| `Semantics.Run` | src/fsm.js:29-116 | No sequence of operations leaves the history empty. |
| `Semantics.MatchingStatesMembers` | src/fsm.js:70-74 | A state is listed for an event iff it is one of the enumerated keys, is configured, and has a transition for that event. |
| `Semantics.MatchingStatesDistinct` | src/fsm.js:70-74 | When the key order has no repeats, the list for an event has no repeats. |
| `Semantics.StepKeepsKnown` | src/fsm.js:29-116 | Every operation keeps every entry of both stacks a configured state or the initial state. |
| `Semantics.RunKeepsKnown` | src/fsm.js:6-116 | After any sequence of operations, every entry of both stacks is a configured state or the initial state. When `initial` is configured, every entry is configured. |
| `Semantics.CurrentIsConfigured` | src/fsm.js:12-23 | From construction, after any operations, the current state is configured provided `initial` is. |
| `Semantics.RunAppend` | src/fsm.js:29-116 | Running two sequences of operations one after the other is the same as running their concatenation. |
| `Semantics.UndoThenRedo` | src/fsm.js:84-108 | A successful undo followed by redo restores the history and redo stack exactly and leaves redo enabled. |
| `Semantics.UndoRedoChain` | src/fsm.js:84-108 | For any k below the history height, k undos followed by k redos restore both stacks exactly. Redo survives a chain of undos and redos. |
| `Semantics.RedoStaysDisabled` | src/fsm.js:29-116 | While no undo runs, a disabled redo flag stays disabled, and redo then returns false and changes nothing. |
| `Semantics.RedoBlockedAfterForward` | src/fsm.js:29-56 | After a successful `changeState`, `trigger` or `reset`, redo returns false until some undo runs, even if the redo stack still holds states. |
| `Semantics.RedoNeedsUndo` | src/fsm.js:14 | A machine on which undo was never called refuses redo, whatever else ran. |
| `Semantics.UndoAfterClearHistory` | src/fsm.js:113-116 | Right after `clearHistory`, undo returns false and changes nothing. |

## Left out

- Error messages: `Error` objects and their text are left out. Failures are values with one
  kind per cause.
- Configuration shape: a configuration that is present but malformed is not modelled, for
  example a state without a `transitions` object. The model's configuration always has this
  shape. Only "no configuration" is an error.
- Property lookup: `getStates` uses the `in` operator, which also sees inherited properties.
  The other methods use `hasOwnProperty`. Both are modelled as map-key membership.
- Non-string arguments: state and event names are modelled as strings. JavaScript converts
  property names to strings. Falsy values other than the empty string (`null`, `0`, `false`,
  `NaN`) are not modelled as `getStates` arguments.
- Aliasing of the configuration: the JavaScript object keeps a reference to the caller's
  configuration, which the caller could still mutate. The model treats the configuration as
  an immutable value.
- Array identity: `getStates()` with no event returns a fresh array from `Object.keys`. The
  model returns the key-order sequence as a value.
- `module.exports`: the module export is not modelled.
- The program has no I/O, concurrency, clocks or floating point to leave out.
