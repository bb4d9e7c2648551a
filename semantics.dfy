/**
 * Reference semantics of the state machine, on values.
 *
 * The machine's configuration never changes; what changes is its History: the stack of
 * visited states (top = current state), the stack of undone states, and the flag that says
 * whether redo may consume that second stack. Each operation of the machine is one function
 * from an old History to a reply and a new History; Step and Run apply operations in
 * sequence, which is what the multi-step properties below are stated over.
 */
module Semantics {
  import opened Wrappers

  /** One configured state: the event names it reacts to, each with its target state. */
  datatype StateDescriptor = StateDescriptor(transitions: map<string, string>)

  /**
   * A machine description. `keyOrder` is the order in which the keys of `states` are
   * enumerated; it holds every key exactly once (see Config).
   */
  datatype ConfigRecord = ConfigRecord(initial: string, states: map<string, StateDescriptor>, keyOrder: seq<string>)
  {
    predicate KeysInOrder() {
      (forall i, j :: 0 <= i < j < |keyOrder| ==> keyOrder[i] != keyOrder[j]) &&
      (forall s :: s in keyOrder ==> s in states) &&
      (forall s :: s in states ==> s in keyOrder)
    }
  }

  /** A configuration whose key order lists each configured state exactly once. */
  type Config = c: ConfigRecord | c.KeysInOrder() witness ConfigRecord("", map[], [])

  /** Why an operation was refused. */
  datatype Error =
    | NoConfig               // the constructor was given no configuration
    | UnknownState           // the requested state is not a key of `states`
    | UnknownTransition      // the current state has no transition for the event
    | UndefinedCurrentState  // the current state is not a key of `states`, so it has no transitions

  /** The mutable part of a machine. */
  datatype History = History(statesStack: seq<string>, tempStack: seq<string>, enableRedo: bool)

  /** An operation that may change the History. */
  datatype Op =
    | ChangeStateOp(state: string)
    | TriggerOp(event: string)
    | ResetOp
    | UndoOp
    | RedoOp
    | ClearHistoryOp

  function Last(s: seq<string>): string
    requires s != []
  {
    s[|s| - 1]
  }

  /** The History of a freshly constructed machine. */
  function Initial(c: Config): History {
    History([c.initial], [], false)
  }

  /** The current state: the top of the history stack. */
  function Current(h: History): string
    requires h.statesStack != []
  {
    Last(h.statesStack)
  }

  /** A state name the machine can hold: a configured state, or the initial state (which the constructor does not check). */
  predicate Admissible(c: Config, s: string) {
    s in c.states || s == c.initial
  }

  /** Every entry of both stacks is admissible. */
  predicate Known(c: Config, h: History) {
    (forall s :: s in h.statesStack ==> Admissible(c, s)) &&
    (forall s :: s in h.tempStack ==> Admissible(c, s))
  }

  /** Every entry of both stacks is a configured state. */
  predicate Configured(c: Config, h: History) {
    (forall s :: s in h.statesStack ==> s in c.states) &&
    (forall s :: s in h.tempStack ==> s in c.states)
  }

  function ChangeState(c: Config, h: History, state: string): (Outcome<Error>, History) {
    if state in c.states then (Pass, h.(statesStack := h.statesStack + [state], enableRedo := false))
    else (Fail(UnknownState), h)
  }

  function Trigger(c: Config, h: History, event: string): (Outcome<Error>, History)
    requires h.statesStack != []
  {
    var current := Current(h);
    if current !in c.states then (Fail(UndefinedCurrentState), h)
    else if event !in c.states[current].transitions then (Fail(UnknownTransition), h)
    else ChangeState(c, h, c.states[current].transitions[event])
  }

  function Reset(c: Config, h: History): (Outcome<Error>, History) {
    ChangeState(c, h, c.initial)
  }

  function Undo(h: History): (bool, History)
    requires h.statesStack != []
  {
    if |h.statesStack| == 1 then (false, h)
    else (true, History(h.statesStack[..|h.statesStack| - 1], h.tempStack + [Current(h)], true))
  }

  function Redo(h: History): (bool, History) {
    if h.tempStack == [] || !h.enableRedo then (false, h)
    else (true, h.(statesStack := h.statesStack + [Last(h.tempStack)], tempStack := h.tempStack[..|h.tempStack| - 1]))
  }

  function ClearHistory(c: Config, h: History): History {
    h.(statesStack := [c.initial], tempStack := [])
  }

  /** The States configured with a transition for `event`, in the order of `keys`. */
  function MatchingStates(keys: seq<string>, states: map<string, StateDescriptor>, event: string): seq<string> {
    if keys == [] then []
    else
      var k := Last(keys);
      MatchingStates(keys[..|keys| - 1], states, event) +
        (if k in states && event in states[k].transitions then [k] else [])
  }

  /** True when `op` is a direct state change (changeState, trigger or reset) that succeeds from `h`. */
  predicate MovesForward(c: Config, h: History, op: Op)
    requires h.statesStack != []
  {
    match op
    case ChangeStateOp(s) => ChangeState(c, h, s).0.Pass?
    case TriggerOp(e) => Trigger(c, h, e).0.Pass?
    case ResetOp => Reset(c, h).0.Pass?
    case _ => false
  }

  /** The History after one operation, whatever it replies. */
  function Step(c: Config, h: History, op: Op): (h': History)
    requires h.statesStack != []
    ensures h'.statesStack != []
  {
    match op
    case ChangeStateOp(s) => ChangeState(c, h, s).1
    case TriggerOp(e) => Trigger(c, h, e).1
    case ResetOp => Reset(c, h).1
    case UndoOp => Undo(h).1
    case RedoOp => Redo(h).1
    case ClearHistoryOp => ClearHistory(c, h)
  }

  /** The History after a sequence of operations, applied first to last. */
  function Run(c: Config, h: History, ops: seq<Op>): (h': History)
    requires h.statesStack != []
    ensures h'.statesStack != []
    decreases |ops|
  {
    if ops == [] then h else Run(c, Step(c, h, ops[0]), ops[1..])
  }

  function Repeat(op: Op, k: nat): (ops: seq<Op>)
    ensures |ops| == k && forall i :: 0 <= i < k ==> ops[i] == op
  {
    if k == 0 then [] else [op] + Repeat(op, k - 1)
  }

  // ---------------------------------------------------------------------------
  // getStates

  /** A state is listed for `event` exactly when it is one of `keys`, configured, and has a transition for `event`. */
  lemma {:induction false} MatchingStatesMembers(keys: seq<string>, states: map<string, StateDescriptor>, event: string, s: string)
    ensures s in MatchingStates(keys, states, event) <==> s in keys && s in states && event in states[s].transitions
  {
    if keys != [] {
      var init := keys[..|keys| - 1];
      MatchingStatesMembers(init, states, event, s);
      assert keys == init + [Last(keys)];
    }
  }

  /** Listing by event never repeats a state when the keys do not repeat. */
  lemma {:induction false} MatchingStatesDistinct(keys: seq<string>, states: map<string, StateDescriptor>, event: string)
    requires forall i, j :: 0 <= i < j < |keys| ==> keys[i] != keys[j]
    ensures var r := MatchingStates(keys, states, event);
      forall i, j :: 0 <= i < j < |r| ==> r[i] != r[j]
  {
    if keys != [] {
      var init := keys[..|keys| - 1];
      var k := Last(keys);
      MatchingStatesDistinct(init, states, event);
      MatchingStatesMembers(init, states, event, k);
      assert k !in init;
    }
  }

  // ---------------------------------------------------------------------------
  // Invariants kept by every operation

  lemma StepKeepsKnown(c: Config, h: History, op: Op)
    requires h.statesStack != [] && Known(c, h)
    ensures Known(c, Step(c, h, op))
  {
  }

  /**
   * Whatever operations run, every entry of both stacks stays a configured state or the
   * initial state; so when the initial state is configured, every entry is configured.
   */
  lemma {:induction false} RunKeepsKnown(c: Config, h: History, ops: seq<Op>)
    requires h.statesStack != [] && Known(c, h)
    ensures Known(c, Run(c, h, ops))
    ensures c.initial in c.states ==> Configured(c, Run(c, h, ops))
    decreases |ops|
  {
    if ops != [] {
      StepKeepsKnown(c, h, ops[0]);
      RunKeepsKnown(c, Step(c, h, ops[0]), ops[1..]);
    }
  }

  /** From construction onwards, the current state is configured whenever the initial state is. */
  lemma CurrentIsConfigured(c: Config, ops: seq<Op>)
    requires c.initial in c.states
    ensures Current(Run(c, Initial(c), ops)) in c.states
  {
    RunKeepsKnown(c, Initial(c), ops);
  }

  // ---------------------------------------------------------------------------
  // Undo and redo

  lemma {:induction false} RunAppend(c: Config, h: History, a: seq<Op>, b: seq<Op>)
    requires h.statesStack != []
    ensures Run(c, h, a + b) == Run(c, Run(c, h, a), b)
    decreases |a|
  {
    if a != [] {
      assert (a + b)[1..] == a[1..] + b;
      RunAppend(c, Step(c, h, a[0]), a[1..], b);
    } else {
      assert a + b == b;
    }
  }

  /** A successful undo followed by redo restores the history and leaves redo enabled. */
  lemma UndoThenRedo(h: History)
    requires h.statesStack != []
    requires Undo(h).0
    ensures Redo(Undo(h).1) == (true, h.(enableRedo := true))
  {
    assert h.statesStack[..|h.statesStack| - 1] + [Current(h)] == h.statesStack;
  }

  /**
   * k undos followed by k redos restore the history exactly, for every k below the height of
   * the history stack: redo survives a chain of undos and redos.
   */
  lemma {:induction false} UndoRedoChain(c: Config, h: History, k: nat)
    requires k < |h.statesStack|
    ensures Run(c, h, Repeat(UndoOp, k) + Repeat(RedoOp, k)) == if k == 0 then h else h.(enableRedo := true)
    decreases k
  {
    if k > 0 {
      var h1 := Undo(h).1;
      var mid := Repeat(UndoOp, k - 1) + Repeat(RedoOp, k - 1);
      assert Repeat(UndoOp, k) + Repeat(RedoOp, k) == ([UndoOp] + mid) + [RedoOp];
      RunAppend(c, h, [UndoOp] + mid, [RedoOp]);
      assert ([UndoOp] + mid)[1..] == mid;
      assert Run(c, h, [UndoOp] + mid) == Run(c, h1, mid);
      UndoRedoChain(c, h1, k - 1);
      assert Run(c, h1, mid) == h1;
      UndoThenRedo(h);
    } else {
      assert Repeat(UndoOp, 0) + Repeat(RedoOp, 0) == [];
    }
  }

  /** While no undo runs, a disabled redo stays disabled, and redo is then refused without effect. */
  lemma {:induction false} RedoStaysDisabled(c: Config, h: History, ops: seq<Op>)
    requires h.statesStack != [] && !h.enableRedo
    requires UndoOp !in ops
    ensures !Run(c, h, ops).enableRedo
    ensures Redo(Run(c, h, ops)) == (false, Run(c, h, ops))
    decreases |ops|
  {
    if ops != [] {
      assert ops[0] in ops;
      assert forall o :: o in ops[1..] ==> o in ops;
      RedoStaysDisabled(c, Step(c, h, ops[0]), ops[1..]);
    }
  }

  /**
   * After a successful changeState, trigger or reset, redo is refused until some undo runs,
   * even if the redo stack still holds states.
   */
  lemma RedoBlockedAfterForward(c: Config, h: History, op: Op, ops: seq<Op>)
    requires h.statesStack != []
    requires MovesForward(c, h, op)
    requires UndoOp !in ops
    ensures Redo(Run(c, Step(c, h, op), ops)).0 == false
  {
    RedoStaysDisabled(c, Step(c, h, op), ops);
  }

  /** A machine on which undo was never called refuses redo. */
  lemma RedoNeedsUndo(c: Config, ops: seq<Op>)
    requires UndoOp !in ops
    ensures Redo(Run(c, Initial(c), ops)) == (false, Run(c, Initial(c), ops))
  {
    RedoStaysDisabled(c, Initial(c), ops);
  }

  /** After clearHistory, undo is refused: only the initial state is left. */
  lemma UndoAfterClearHistory(c: Config, h: History)
    ensures Undo(ClearHistory(c, h)) == (false, ClearHistory(c, h))
  {
  }
}
