/** Small concrete runs of the registry, with the callables named by
    strings. */
module Scenarios {
  import opened Ordering
  import opened Hooks

  /** Three hooks under one id: `A` and `C` at the default priority 0, `B`
      at priority 5, registered in the order A, B, C. `B` runs first for its
      priority, then `C` before `A`, because among equal priorities the
      later registration runs first. */
  method TieBreakScenario() returns (order: seq<string>)
    ensures order == ["B", "C", "A"]
  {
    var m := new HookManager<string>();
    var _ := m.Add("x", "A");
    var _ := m.Add("x", "B", 5);
    var _ := m.Add("x", "C");
    assert m.Entries("x") == [Entry(0, 0, "A"), Entry(5, 1, "B"), Entry(0, 2, "C")];
    TieBreakOrder();
    order := m.Run("x");
  }

  /** The run order of the three entries stored by `TieBreakScenario`. */
  lemma TieBreakOrder()
    ensures Callables(RunOrder([Entry(0, 0, "A"), Entry(5, 1, "B"), Entry(0, 2, "C")])) == ["B", "C", "A"]
  {
    var a, b, c := Entry(0, 0, "A"), Entry(5, 1, "B"), Entry(0, 2, "C");
    assert [a, b, c][1..] == [b, c] && [b, c][1..] == [c];
    assert RunOrder([c]) == [c];
    assert RunOrder([b, c]) == [b, c];
    assert Insert(a, []) == [a];
    assert [c] + Insert(a, [c][1..]) == [c, a];
    assert Insert(a, [c]) == [c, a];
    assert Insert(a, [b, c]) == [b] + Insert(a, [c]);
  }

  /** A hook removed before the run is not invoked, and the one left is. */
  method RemoveScenario() returns (order: seq<string>)
    ensures order == ["B"]
  {
    var m := new HookManager<string>();
    var _ := m.Add("x", "A");
    var _ := m.Add("x", "B");
    m.Remove("x", "A");
    var b := Entry(0, 1, "B");
    assert Without([Entry(0, 0, "A")], "A") == [];
    assert m.Entries("x") == [b];
    order := m.Run("x");
  }

  /** Running an id nobody registered invokes nothing, logs a count of 0,
      and leaves the id stored with no hooks. */
  method UnknownIdScenario() returns (order: seq<string>, m: HookManager<string>)
    ensures order == []
    ensures m.hooks == map["missing" := []]
    ensures m.events == [RunningHooks(0, "missing")]
  {
    m := new HookManager<string>();
    order := m.Run("missing");
  }
}
