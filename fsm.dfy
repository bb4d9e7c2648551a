/**
 * The FSM class: a fixed configuration, a history stack whose top is the current state,
 * a redo stack fed by undo, and a flag that lets redo consume that stack only until the
 * next direct state change. Each method updates the fields in place and states its new
 * state both outright and as the matching function of module Semantics applied to the
 * old state, so that the lemmas proved there apply to any sequence of calls.
 */
module Fsm {
  import opened Wrappers
  import Semantics

  class FSM {
    const config: Semantics.Config
    var statesStack: seq<string>
    var tempStack: seq<string>
    var enableRedo: bool

    /** The history is never empty, and it and the redo stack hold only configured states or the initial state. */
    ghost predicate Valid()
      reads this
    {
      statesStack != [] && Semantics.Known(config, Snapshot())
    }

    /** The fields that the methods update, as one value. */
    function Snapshot(): Semantics.History
      reads this
    {
      Semantics.History(statesStack, tempStack, enableRedo)
    }

    constructor (config: Semantics.Config)
      ensures Valid() && this.config == config
      ensures statesStack == [config.initial] && tempStack == [] && !enableRedo
      ensures Snapshot() == Semantics.Initial(config)
      ensures GetState() == config.initial
    {
      this.config := config;
      statesStack := [config.initial];
      tempStack := [];
      enableRedo := false;
    }

    /** The current state: the top of the history stack, a configured state whenever the initial state is one. */
    function GetState(): (s: string)
      reads this
      requires Valid()
      ensures s == statesStack[|statesStack| - 1]
      ensures s in config.states || s == config.initial
      ensures config.initial in config.states ==> s in config.states
    {
      var top := statesStack[|statesStack| - 1];
      assert top in statesStack;
      top
    }

    method ChangeState(state: string) returns (r: Outcome<Semantics.Error>)
      requires Valid()
      modifies this
      ensures Valid()
      ensures (r, Snapshot()) == Semantics.ChangeState(config, old(Snapshot()), state)
      ensures r.Pass? <==> state in config.states
      ensures r.Pass? ==> statesStack == old(statesStack) + [state] && GetState() == state
      ensures r.Pass? ==> tempStack == old(tempStack) && !enableRedo
      ensures r.Fail? ==> r.error == Semantics.UnknownState && unchanged(this)
    {
      if state !in config.states {
        return Fail(Semantics.UnknownState);
      }
      statesStack := statesStack + [state];
      enableRedo := false;
      r := Pass;
    }

    method Trigger(event: string) returns (r: Outcome<Semantics.Error>)
      requires Valid()
      modifies this
      ensures Valid()
      ensures (r, Snapshot()) == Semantics.Trigger(config, old(Snapshot()), event)
      ensures old(GetState()) !in config.states ==> r == Fail(Semantics.UndefinedCurrentState)
      ensures old(GetState()) in config.states && event !in config.states[old(GetState())].transitions ==>
        r == Fail(Semantics.UnknownTransition)
      ensures r.Pass? <==>
        old(GetState()) in config.states && event in config.states[old(GetState())].transitions &&
        config.states[old(GetState())].transitions[event] in config.states
      ensures r.Pass? ==>
        statesStack == old(statesStack) + [config.states[old(GetState())].transitions[event]] &&
        tempStack == old(tempStack) && !enableRedo
      ensures r.Fail? ==> unchanged(this)
    {
      var current := GetState();
      if current !in config.states {
        return Fail(Semantics.UndefinedCurrentState);
      }
      var transitions := config.states[current].transitions;
      if event !in transitions {
        return Fail(Semantics.UnknownTransition);
      }
      r := ChangeState(transitions[event]);
      if r.Pass? {
        enableRedo := false;
      }
    }

    /** Pushes the initial state on top of the history; nothing beneath it is discarded. */
    method Reset() returns (r: Outcome<Semantics.Error>)
      requires Valid()
      modifies this
      ensures Valid()
      ensures (r, Snapshot()) == Semantics.Reset(config, old(Snapshot()))
      ensures r.Pass? <==> config.initial in config.states
      ensures r.Pass? ==> statesStack == old(statesStack) + [config.initial] && GetState() == config.initial
      ensures r.Pass? ==> tempStack == old(tempStack) && !enableRedo
      ensures r.Fail? ==> r.error == Semantics.UnknownState && unchanged(this)
    {
      r := ChangeState(config.initial);
    }

    /**
     * With no event (or an empty event name) lists every configured state; otherwise lists
     * the configured states that have a transition for the event. Either way in key order,
     * without repetition.
     */
    method GetStates(event: Option<string>) returns (r: seq<string>)
      ensures event == None || event == Some("") ==> r == config.keyOrder
      ensures event.Some? && event.value != "" ==> r == Semantics.MatchingStates(config.keyOrder, config.states, event.value)
      ensures forall s :: s in r <==>
        s in config.states && (event == None || event == Some("") || event.value in config.states[s].transitions)
      ensures forall i, j :: 0 <= i < j < |r| ==> r[i] != r[j]
    {
      if event.None? || event.value == "" {
        return config.keyOrder;
      }
      var e := event.value;
      var keys := config.keyOrder;
      r := [];
      var i := 0;
      while i < |keys|
        invariant 0 <= i <= |keys|
        invariant r == Semantics.MatchingStates(keys[..i], config.states, e)
      {
        var k := keys[i];
        assert keys[..i + 1][..i] == keys[..i];
        if e in config.states[k].transitions {
          r := r + [k];
        }
        i := i + 1;
      }
      assert keys[..i] == keys;
      forall s
        ensures s in r <==> s in config.states && e in config.states[s].transitions
      {
        Semantics.MatchingStatesMembers(keys, config.states, e, s);
      }
      Semantics.MatchingStatesDistinct(keys, config.states, e);
    }

    /** Moves the current state onto the redo stack, unless it is the only entry of the history. */
    method Undo() returns (ok: bool)
      requires Valid()
      modifies this
      ensures Valid()
      ensures (ok, Snapshot()) == Semantics.Undo(old(Snapshot()))
      ensures ok <==> |old(statesStack)| > 1
      ensures !ok ==> unchanged(this)
      ensures ok ==> statesStack == old(statesStack)[..|old(statesStack)| - 1] && GetState() == old(statesStack)[|old(statesStack)| - 2]
      ensures ok ==> tempStack == old(tempStack) + [old(GetState())] && enableRedo
    {
      if |statesStack| == 1 {
        return false;
      }
      var top := statesStack[|statesStack| - 1];
      statesStack := statesStack[..|statesStack| - 1];
      tempStack := tempStack + [top];
      enableRedo := true;
      ok := true;
    }

    /** Moves the top of the redo stack back onto the history, if redo is enabled and that stack is not empty. */
    method Redo() returns (ok: bool)
      requires Valid()
      modifies this
      ensures Valid()
      ensures (ok, Snapshot()) == Semantics.Redo(old(Snapshot()))
      ensures ok <==> old(tempStack) != [] && old(enableRedo)
      ensures !ok ==> unchanged(this)
      ensures ok ==> statesStack == old(statesStack) + [old(tempStack)[|old(tempStack)| - 1]] && GetState() == old(tempStack)[|old(tempStack)| - 1]
      ensures ok ==> tempStack == old(tempStack)[..|old(tempStack)| - 1] && enableRedo
    {
      if tempStack == [] || !enableRedo {
        return false;
      }
      var top := tempStack[|tempStack| - 1];
      tempStack := tempStack[..|tempStack| - 1];
      statesStack := statesStack + [top];
      ok := true;
      assert old(tempStack) == tempStack + [top];
    }

    /** Drops all history but the initial state and empties the redo stack; the redo flag is left as it was. */
    method ClearHistory()
      requires Valid()
      modifies this
      ensures Valid()
      ensures Snapshot() == Semantics.ClearHistory(config, old(Snapshot()))
      ensures statesStack == [config.initial] && GetState() == config.initial
      ensures tempStack == [] && enableRedo == old(enableRedo)
    {
      statesStack := [config.initial];
      tempStack := [];
    }
  }

  /** Builds a machine, or fails when no configuration is given. */
  method Create(config: Option<Semantics.Config>) returns (r: Result<FSM, Semantics.Error>)
    ensures r.Failure? <==> config.None?
    ensures r.Failure? ==> r.error == Semantics.NoConfig
    ensures r.Success? ==>
      fresh(r.value) && r.value.Valid() && r.value.config == config.value &&
      r.value.Snapshot() == Semantics.Initial(config.value)
  {
    if config.None? {
      return Failure(Semantics.NoConfig);
    }
    var m := new FSM(config.value);
    r := Success(m);
  }
}
