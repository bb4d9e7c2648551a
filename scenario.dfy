/** A caller of the FSM class: the on/off switch, driven only through the methods' contracts. */
module Scenario {
  import opened Wrappers
  import Semantics
  import Fsm

  /** The configuration with states "off" and "on", each with one transition to the other. */
  function Switch(): (c: Semantics.Config)
    ensures c.initial == "off" && c.states.Keys == {"off", "on"}
    ensures c.states["off"].transitions == map["on" := "on"]
    ensures c.states["on"].transitions == map["off" := "off"]
  {
    var rec := Semantics.ConfigRecord(
      "off",
      map["off" := Semantics.StateDescriptor(map["on" := "on"]), "on" := Semantics.StateDescriptor(map["off" := "off"])],
      ["off", "on"]);
    assert rec.KeysInOrder();
    rec
  }

  /** Walks the switch through trigger, a refused trigger, undo, redo and a redo refused after a direct change. */
  method SwitchWalk() {
    var m := new Fsm.FSM(Switch());
    assert m.GetState() == "off";
    var r := m.Trigger("on");
    assert r == Pass && m.GetState() == "on";
    r := m.Trigger("bad");
    assert r == Fail(Semantics.UnknownTransition) && m.GetState() == "on";
    var ok := m.Undo();
    assert ok && m.GetState() == "off";
    ok := m.Redo();
    assert ok && m.GetState() == "on";
    r := m.Trigger("off");
    assert r == Pass;
    ok := m.Redo();
    assert !ok;
  }

  /** Lists the switch's states, clears its history and is then refused undo. */
  method SwitchQueries() {
    var created := Fsm.Create(Some(Switch()));
    var m := created.value;
    var states := m.GetStates(Some("on"));
    assert states == ["off"];
    states := m.GetStates(None);
    assert states == ["off", "on"];
    m.ClearHistory();
    var ok := m.Undo();
    assert !ok;
  }
}
