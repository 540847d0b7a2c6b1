/** The hook registry `HookManager` of piehook/hooks.py.

    The three fields of the source become fields of the class: `hooks`
    (`_hooks`, a defaultdict from id to stored entries), `nextIndex`
    (`_index`, the registration counter shared by all ids) and
    `importedHooks` (`imported_hooks`). What the manager does outside
    itself (log lines, calls of hooks, module imports) is appended to the
    `events` trace in the order it happens. */
module Hooks {
  import opened Ordering
  import opened Discovery

  /** What the manager does outside its own state. */
  datatype Event<F> =
    | RunningHooks(hookCount: nat, id: string)    // info log "Running {hookCount} hooks for {id}"
    | Invoke(func: F)                         // func(*args, **kwargs)
    | ImportModule(name: string)              // importlib.import_module(name)
    | ImportedHooks(importedCount: int, name: string) // info log "Imported {importedCount} hook(s) from {name}"

  /** One `add(id, priority)(func)` call, as made by the top-level code of
      an imported hook module. */
  datatype Registration<F> = Registration(id: string, priority: int, func: F)

  /** `_hooks[id]` on the defaultdict: the stored entries, or none. */
  function EntriesOf<F>(m: map<string, seq<Entry<F>>>, id: string): seq<Entry<F>> {
    if id in m then m[id] else []
  }

  /** The storage after one registration stamped with index `next`. */
  function AddEntry<F>(m: map<string, seq<Entry<F>>>, next: nat, reg: Registration<F>): map<string, seq<Entry<F>>>
  {
    m[reg.id := EntriesOf(m, reg.id) + [Entry(reg.priority, next, reg.func)]]
  }

  /** The storage after the registrations `regs`, made in order and stamped
      with the consecutive indices from `next` on. */
  function AddAll<F>(m: map<string, seq<Entry<F>>>, next: nat, regs: seq<Registration<F>>): map<string, seq<Entry<F>>>
    decreases |regs|
  {
    if regs == [] then m
    else AddEntry(AddAll(m, next, regs[..|regs| - 1]), next + |regs| - 1, regs[|regs| - 1])
  }

  /** The entries of `s` whose callable is not `f`, in their order: the
      comprehension `[hook for hook in ... if hook[2] != func]`. */
  function Without<F(==)>(s: seq<Entry<F>>, f: F): (r: seq<Entry<F>>)
    ensures forall i :: 0 <= i < |r| ==> r[i] in s && r[i].func != f
    ensures forall i :: 0 <= i < |s| && s[i].func != f ==> s[i] in r
    ensures |r| <= |s|
    decreases |s|
  {
    if s == [] then []
    else
      var prev := s[..|s| - 1];
      assert s == prev + [s[|s| - 1]];
      Without(prev, f) + if s[|s| - 1].func != f then [s[|s| - 1]] else []
  }

  /** Every stored index was handed out already: it is below the counter. */
  ghost predicate IndicesBelow<F>(m: map<string, seq<Entry<F>>>, next: nat) {
    forall id, i :: id in m && 0 <= i < |m[id]| ==> m[id][i].index < next
  }

  /** No index is stored under two different ids. */
  ghost predicate IndicesDisjoint<F>(m: map<string, seq<Entry<F>>>) {
    forall id1, id2, i, j ::
      id1 in m && id2 in m && id1 != id2 && 0 <= i < |m[id1]| && 0 <= j < |m[id2]| ==>
      m[id1][i].index != m[id2][j].index
  }

  /** The registry invariant: no index is stored twice, within one id or
      across ids, and all of them are below the counter. */
  ghost predicate WellIndexed<F>(m: map<string, seq<Entry<F>>>, next: nat) {
    && IndicesBelow(m, next)
    && (forall id :: id in m ==> DistinctIndices(m[id]))
    && IndicesDisjoint(m)
  }

  /** The trace of invoking the callables `fs` in order. */
  function CallEvents<F>(fs: seq<F>): (r: seq<Event<F>>)
    ensures |r| == |fs|
    ensures forall i :: 0 <= i < |fs| ==> r[i] == Invoke(fs[i])
    decreases |fs|
  {
    if fs == [] then [] else CallEvents(fs[..|fs| - 1]) + [Invoke(fs[|fs| - 1])]
  }

  /** The trace of importing `names` in order, each import followed by its
      log line, whose count is always 1. */
  function ImportTrace<F>(names: seq<string>): (r: seq<Event<F>>)
    ensures |r| == 2 * |names|
    ensures forall i :: 0 <= i < |names| ==> r[2 * i] == ImportModule(names[i]) && r[2 * i + 1] == ImportedHooks(1, names[i])
    decreases |names|
  {
    if names == [] then []
    else
      var prev := names[..|names| - 1];
      assert names == prev + [names[|names| - 1]];
      ImportTrace(prev) + [ImportModule(names[|names| - 1]), ImportedHooks(1, names[|names| - 1])]
  }

  /** The registrations that importing `names` in order performs. */
  function RegistrationsOf<F>(load: string -> seq<Registration<F>>, names: seq<string>): seq<Registration<F>>
    decreases |names|
  {
    if names == [] then [] else RegistrationsOf(load, names[..|names| - 1]) + load(names[|names| - 1])
  }

  /** Registering keeps the invariant once the counter moves past the new
      index. */
  lemma AddEntryWellIndexed<F>(m: map<string, seq<Entry<F>>>, next: nat, reg: Registration<F>)
    requires WellIndexed(m, next)
    ensures WellIndexed(AddEntry(m, next, reg), next + 1)
  {
    var r := AddEntry(m, next, reg);
    var prev := EntriesOf(m, reg.id);
    var s := r[reg.id];
    assert forall i :: 0 <= i < |prev| ==> s[i] == prev[i];
    assert IndicesBelow(r, next + 1) by {
      forall id, i | id in r && 0 <= i < |r[id]| ensures r[id][i].index < next + 1 {
        if id != reg.id {
          assert r[id] == m[id];
        }
      }
    }
    assert DistinctIndices(s) by {
      forall i, j | 0 <= i < j < |s| ensures s[i].index != s[j].index {
        if reg.id in m {
          assert s[i].index < next;
        }
      }
    }
    assert IndicesDisjoint(r) by {
      forall id1, id2, i, j | id1 in r && id2 in r && id1 != id2 && 0 <= i < |r[id1]| && 0 <= j < |r[id2]|
        ensures r[id1][i].index != r[id2][j].index
      {
        if id1 != reg.id && id2 != reg.id {
          assert r[id1] == m[id1] && r[id2] == m[id2];
        } else if id1 == reg.id {
          assert r[id2] == m[id2];
          assert r[id2][j].index < next;
        } else {
          assert r[id1] == m[id1];
          assert r[id1][i].index < next;
        }
      }
    }
  }

  /** Reading a missing id through the defaultdict keeps the invariant. */
  lemma TouchWellIndexed<F>(m: map<string, seq<Entry<F>>>, next: nat, id: string)
    requires WellIndexed(m, next)
    ensures WellIndexed(m[id := EntriesOf(m, id)], next)
  {
    if id in m {
      assert m[id := EntriesOf(m, id)] == m;
    }
  }

  lemma {:induction false} WithoutDistinct<F>(s: seq<Entry<F>>, f: F)
    requires DistinctIndices(s)
    ensures DistinctIndices(Without(s, f))
    decreases |s|
  {
    if s != [] {
      var prev := s[..|s| - 1];
      var last := s[|s| - 1];
      assert DistinctIndices(prev);
      WithoutDistinct(prev, f);
      var w := Without(prev, f);
      forall e | e in w ensures e.index != last.index {
        assert e in prev;
        var k :| 0 <= k < |prev| && prev[k] == e;
        assert s[k] == e;
      }
    }
  }

  /** Filtering the entries of one id keeps the invariant. */
  lemma WithoutWellIndexed<F>(m: map<string, seq<Entry<F>>>, next: nat, id: string, f: F)
    requires WellIndexed(m, next)
    ensures WellIndexed(m[id := Without(EntriesOf(m, id), f)], next)
  {
    var s: seq<Entry<F>> := EntriesOf(m, id);
    var w: seq<Entry<F>> := Without(s, f);
    var r: map<string, seq<Entry<F>>> := m[id := w];
    WithoutDistinct(s, f);
    assert forall i :: 0 <= i < |w| ==> exists k :: 0 <= k < |s| && s[k] == w[i];
    assert IndicesBelow(r, next) by {
      forall id', i | id' in r && 0 <= i < |r[id']| ensures r[id'][i].index < next {
        if id' == id {
          var k :| 0 <= k < |s| && s[k] == w[i];
        }
      }
    }
    assert IndicesDisjoint(r) by {
      forall id1, id2, i, j | id1 in r && id2 in r && id1 != id2 && 0 <= i < |r[id1]| && 0 <= j < |r[id2]|
        ensures r[id1][i].index != r[id2][j].index
      {
        if id1 == id {
          var k :| 0 <= k < |s| && s[k] == w[i];
        } else if id2 == id {
          var k :| 0 <= k < |s| && s[k] == w[j];
        }
      }
    }
  }

  /** `add` touches only the list of its own id, which grows by the new
      entry at its end. */
  lemma AddEntryOnlyTouchesItsId<F>(m: map<string, seq<Entry<F>>>, next: nat, reg: Registration<F>, other: string)
    ensures other != reg.id ==> EntriesOf(AddEntry(m, next, reg), other) == EntriesOf(m, other)
    ensures EntriesOf(AddEntry(m, next, reg), reg.id) == EntriesOf(m, reg.id) + [Entry(reg.priority, next, reg.func)]
    ensures reg.id in AddEntry(m, next, reg)
  {
  }

  /** In a registry that keeps its invariant, a run of any id is strictly
      descending in (priority, index) and does not depend on how the
      entries happen to be stored. */
  lemma RunOrderOfRegistry<F>(m: map<string, seq<Entry<F>>>, next: nat, id: string, t: seq<Entry<F>>)
    requires WellIndexed(m, next)
    requires multiset(t) == multiset(EntriesOf(m, id))
    ensures InRunOrder(RunOrder(EntriesOf(m, id)))
    ensures DistinctIndices(t) ==> RunOrder(t) == RunOrder(EntriesOf(m, id))
  {
    RunOrderIsDescending(EntriesOf(m, id));
    if DistinctIndices(t) {
      RunOrderIgnoresStorageOrder(t, EntriesOf(m, id));
    }
  }

  /** The hook just added runs after every hook of higher priority and
      before every other hook of the same or a lower priority: among equal
      priorities the latest registration runs first. */
  lemma LatestAddedRunsFirstAmongEquals<F>(m: map<string, seq<Entry<F>>>, next: nat, reg: Registration<F>)
    requires WellIndexed(m, next)
    ensures var e := Entry(reg.priority, next, reg.func);
      var s := RunOrder(EntriesOf(AddEntry(m, next, reg), reg.id));
      && e in s
      && forall i, j :: 0 <= i < |s| && 0 <= j < |s| && s[i] == e && j != i ==>
           (i < j <==> s[j].priority <= reg.priority)
  {
    var e := Entry(reg.priority, next, reg.func);
    var m' := AddEntry(m, next, reg);
    var entries := EntriesOf(m', reg.id);
    AddEntryWellIndexed(m, next, reg);
    AddEntryOnlyTouchesItsId(m, next, reg, reg.id);
    assert entries[|entries| - 1] == e;
    forall k | 0 <= k < |entries| && entries[k] != e ensures entries[k].index < e.index {
      assert k < |entries| - 1;
      assert entries[k] in EntriesOf(m, reg.id);
    }
    NewestRunsFirstAmongEquals(entries, e);
  }

  /** Filtering distributes over concatenation: `Without` keeps the other
      entries in their relative order. */
  lemma {:induction false} WithoutAppend<F>(a: seq<Entry<F>>, b: seq<Entry<F>>, f: F)
    ensures Without(a + b, f) == Without(a, f) + Without(b, f)
    decreases |b|
  {
    if b != [] {
      var prev := b[..|b| - 1];
      assert (a + b)[..|a + b| - 1] == a + prev;
      WithoutAppend(a, prev, f);
    } else {
      assert a + b == a;
    }
  }

  /** Removing a callable that is not stored changes nothing. */
  lemma {:induction false} WithoutAbsent<F>(s: seq<Entry<F>>, f: F)
    requires forall e :: e in s ==> e.func != f
    ensures Without(s, f) == s
    decreases |s|
  {
    if s != [] {
      var prev := s[..|s| - 1];
      WithoutAbsent(prev, f);
      assert s == prev + [s[|s| - 1]];
    }
  }

  /** Removing the same callable twice is the same as removing it once. */
  lemma {:induction false} WithoutIdempotent<F>(s: seq<Entry<F>>, f: F)
    ensures Without(Without(s, f), f) == Without(s, f)
    decreases |s|
  {
    if s != [] {
      var prev := s[..|s| - 1];
      var last := s[|s| - 1];
      WithoutIdempotent(prev, f);
      WithoutAppend(Without(prev, f), if last.func != f then [last] else [], f);
      assert Without([last], f) == if last.func != f then [last] else [] by {
        assert [last][..0] == [];
      }
    }
  }

  /** After `remove(id, f)` a run of `id` never invokes `f`, and invokes
      every other stored callable as before. */
  lemma RemovedNeverRuns<F>(s: seq<Entry<F>>, f: F)
    ensures f !in Callables(RunOrder(Without(s, f)))
    ensures forall e :: e in s && e.func != f ==> e.func in Callables(RunOrder(Without(s, f)))
  {
    var r := RunOrder(Without(s, f));
    var c := Callables(r);
    forall i | 0 <= i < |c| ensures c[i] != f {
      assert r[i] in multiset(r);
    }
    forall e | e in s && e.func != f ensures e.func in c {
      assert e in multiset(r);
      var k :| 0 <= k < |r| && r[k] == e;
      assert c[k] == e.func;
    }
  }

  lemma {:induction false} AddAllAppend<F>(m: map<string, seq<Entry<F>>>, next: nat, a: seq<Registration<F>>, b: seq<Registration<F>>)
    ensures AddAll(m, next, a + b) == AddAll(AddAll(m, next, a), next + |a|, b)
    decreases |b|
  {
    if b == [] {
      assert a + b == a;
    } else {
      var prev := b[..|b| - 1];
      assert (a + b)[..|a + b| - 1] == a + prev;
      AddAllAppend(m, next, a, prev);
    }
  }

  /** The part of the manager's state an import scan changes. */
  datatype ScanState<F> = ScanState(imported: set<string>, hooks: map<string, seq<Entry<F>>>, next: nat, events: seq<Event<F>>)

  /** The scan's step for one hook file with module name `name`: a name
      imported before changes nothing; a new one is imported (its
      registrations run and the import is traced), recorded, and logged
      with the growth of the recorded set, which is 1. */
  function ImportStep<F>(st: ScanState<F>, name: string, load: string -> seq<Registration<F>>): ScanState<F> {
    if name in st.imported then st
    else ScanState(st.imported + {name}, AddAll(st.hooks, st.next, load(name)), st.next + |load(name)|,
                   st.events + [ImportModule(name), ImportedHooks(1, name)])
  }

  /** The state after the scan has met the hook-file names `names` in order,
      starting from `st`. */
  function ScanAll<F>(st: ScanState<F>, names: seq<string>, load: string -> seq<Registration<F>>): ScanState<F>
    decreases |names|
  {
    if names == [] then st
    else ImportStep(ScanAll(st, names[..|names| - 1], load), names[|names| - 1], load)
  }

  lemma ScanAllSnoc<F>(st: ScanState<F>, names: seq<string>, n: string, load: string -> seq<Registration<F>>)
    ensures ScanAll(st, names + [n], load) == ImportStep(ScanAll(st, names, load), n, load)
  {
    assert (names + [n])[..|names|] == names;
  }

  lemma {:induction false} ScanAllAppend<F>(st: ScanState<F>, a: seq<string>, b: seq<string>, load: string -> seq<Registration<F>>)
    ensures ScanAll(st, a + b, load) == ScanAll(ScanAll(st, a, load), b, load)
    decreases |b|
  {
    if b == [] {
      assert a + b == a;
    } else {
      var prev := b[..|b| - 1];
      assert a + b == (a + prev) + [b[|b| - 1]];
      ScanAllAppend(st, a, prev, load);
      ScanAllSnoc(st, a + prev, b[|b| - 1], load);
      ScanAllSnoc(ScanAll(st, a, load), prev, b[|b| - 1], load);
    }
  }

  /** The state an import scan has reached after meeting the hook-file
      names `names`, starting from `seen0`, `hooks0`, `next0`, `events0`:
      every name met is recorded, and the names imported for the first
      time have run their registrations and left their trace. */
  ghost predicate Scanned<F>(names: seq<string>, load: string -> seq<Registration<F>>,
                             seen0: set<string>, hooks0: map<string, seq<Entry<F>>>, next0: nat, events0: seq<Event<F>>,
                             imported: set<string>, hooks: map<string, seq<Entry<F>>>, next: nat, events: seq<Event<F>>)
  {
    var newNames := FreshImports(names, seen0);
    && imported == seen0 + SetOf(names)
    && hooks == AddAll(hooks0, next0, RegistrationsOf(load, newNames))
    && next == next0 + |RegistrationsOf(load, newNames)|
    && events == events0 + ImportTrace(newNames)
  }

  /** Meeting a hook-file name `n` that is recorded already changes
      nothing. */
  lemma ScanSkip<F>(names: seq<string>, n: string, load: string -> seq<Registration<F>>,
                    seen0: set<string>, hooks0: map<string, seq<Entry<F>>>, next0: nat, events0: seq<Event<F>>,
                    imported: set<string>, hooks: map<string, seq<Entry<F>>>, next: nat, events: seq<Event<F>>)
    requires Scanned(names, load, seen0, hooks0, next0, events0, imported, hooks, next, events)
    requires n in imported
    ensures Scanned(names + [n], load, seen0, hooks0, next0, events0, imported, hooks, next, events)
  {
    var met := names + [n];
    assert met[..|names|] == names && met[|names|] == n;
    assert SetOf(met) == SetOf(names) + {n};
    assert n in seen0 || n in names;
    assert FreshImports(met, seen0) == FreshImports(names, seen0);
  }

  /** Meeting a hook-file name `n` not recorded yet imports it: its
      registrations run, it is recorded, and the import and its log line
      join the trace. */
  lemma ScanImport<F>(names: seq<string>, n: string, load: string -> seq<Registration<F>>,
                      seen0: set<string>, hooks0: map<string, seq<Entry<F>>>, next0: nat, events0: seq<Event<F>>,
                      imported: set<string>, hooks: map<string, seq<Entry<F>>>, next: nat, events: seq<Event<F>>)
    requires Scanned(names, load, seen0, hooks0, next0, events0, imported, hooks, next, events)
    requires n !in imported
    ensures Scanned(names + [n], load, seen0, hooks0, next0, events0, imported + {n},
                    AddAll(hooks, next, load(n)), next + |load(n)|, events + [ImportModule(n), ImportedHooks(1, n)])
  {
    var met := names + [n];
    assert met[..|names|] == names && met[|names|] == n;
    assert SetOf(met) == SetOf(names) + {n};
    var prev := FreshImports(names, seen0);
    assert FreshImports(met, seen0) == prev + [n];
    assert (prev + [n])[..|prev|] == prev;
    var regs := RegistrationsOf(load, prev);
    assert RegistrationsOf(load, prev + [n]) == regs + load(n);
    AddAllStep(hooks0, next0, regs, load(n), hooks, next);
    var trace: seq<Event<F>> := [ImportModule(n), ImportedHooks(1, n)];
    assert ImportTrace<F>(prev + [n]) == ImportTrace<F>(prev) + trace;
    assert (events0 + ImportTrace<F>(prev)) + trace == events0 + (ImportTrace<F>(prev) + trace);
  }

  /** The scan in closed form: after meeting `names`, exactly the names met
      are recorded (added to those recorded before); the names met for the
      first time, and only those, are imported, each once and in the order
      met; their registrations are stored with consecutive indices; and the
      trace grows by one import and one log line with count 1 per import. */
  lemma {:induction false} ScanAllClosedForm<F>(st: ScanState<F>, names: seq<string>, load: string -> seq<Registration<F>>)
    ensures var r := ScanAll(st, names, load);
      Scanned(names, load, st.imported, st.hooks, st.next, st.events, r.imported, r.hooks, r.next, r.events)
    decreases |names|
  {
    if names != [] {
      var prev := names[..|names| - 1];
      var n := names[|names| - 1];
      assert names == prev + [n];
      ScanAllClosedForm(st, prev, load);
      var q := ScanAll(st, prev, load);
      if n in q.imported {
        ScanSkip(prev, n, load, st.imported, st.hooks, st.next, st.events, q.imported, q.hooks, q.next, q.events);
      } else {
        ScanImport(prev, n, load, st.imported, st.hooks, st.next, st.events, q.imported, q.hooks, q.next, q.events);
      }
    }
  }

  lemma AddAllStep<F>(m: map<string, seq<Entry<F>>>, next: nat, regs: seq<Registration<F>>, more: seq<Registration<F>>,
                      m': map<string, seq<Entry<F>>>, next': nat)
    requires m' == AddAll(m, next, regs) && next' == next + |regs|
    ensures AddAll(m, next, regs + more) == AddAll(m', next', more)
  {
    AddAllAppend(m, next, regs, more);
  }

  lemma AddAllSnoc<F>(m: map<string, seq<Entry<F>>>, next: nat, regs: seq<Registration<F>>, reg: Registration<F>)
    ensures AddAll(m, next, regs + [reg]) == AddEntry(AddAll(m, next, regs), next + |regs|, reg)
  {
    assert (regs + [reg])[..|regs|] == regs;
  }

  /** What `ImportHooks` promises, read off the closed form of the scan. */
  lemma ImportedSummary<F>(st: ScanState<F>, names: seq<string>, load: string -> seq<Registration<F>>)
    ensures var r := ScanAll(st, names, load);
      var newNames := FreshImports(names, st.imported);
      && r.imported == st.imported + SetOf(names)
      && r.hooks == AddAll(st.hooks, st.next, RegistrationsOf(load, newNames))
      && r.next == st.next + |RegistrationsOf(load, newNames)|
      && r.events == st.events + ImportTrace(newNames)
      && (SetOf(names) <= st.imported ==> r.hooks == st.hooks && r.next == st.next && r.events == st.events)
  {
    ScanAllClosedForm(st, names, load);
    if SetOf(names) <= st.imported {
      RescanImportsNothing(names, st.imported);
    }
  }

  /** The loop of `run` that calls each callable of `funcs` in turn. */
  method InvokeEach<F>(funcs: seq<F>) returns (calls: seq<Event<F>>)
    ensures calls == CallEvents(funcs)
  {
    calls := [];
    var i := 0;
    while i < |funcs|
      invariant 0 <= i <= |funcs|
      invariant calls == CallEvents(funcs[..i])
    {
      assert funcs[..i + 1][..i] == funcs[..i];
      calls := calls + [Invoke(funcs[i])];
      i := i + 1;
    }
    assert funcs[..|funcs|] == funcs;
  }

  /** The list comprehension of `remove`, run as a loop: the entries of
      `entries` whose callable is not `func`, in their order. */
  method KeepOthers<F(==)>(entries: seq<Entry<F>>, func: F) returns (kept: seq<Entry<F>>)
    ensures kept == Without(entries, func)
  {
    kept := [];
    var i := 0;
    while i < |entries|
      invariant 0 <= i <= |entries|
      invariant kept == Without(entries[..i], func)
    {
      assert entries[..i + 1][..i] == entries[..i];
      if entries[i].func != func {
        kept := kept + [entries[i]];
      }
      i := i + 1;
    }
    assert entries[..|entries|] == entries;
  }

  class HookManager<F(==)> {
    var hooks: map<string, seq<Entry<F>>>
    var nextIndex: nat
    var importedHooks: set<string>
    var events: seq<Event<F>>

    ghost predicate Valid()
      reads this
    {
      WellIndexed(hooks, nextIndex)
    }

    /** `HookManager()`: no hooks, the counter at 0, nothing imported. */
    constructor ()
      ensures Valid()
      ensures hooks == map[] && nextIndex == 0 && importedHooks == {} && events == []
    {
      hooks := map[];
      nextIndex := 0;
      importedHooks := {};
      events := [];
    }

    function Entries(id: string): seq<Entry<F>>
      reads this
    {
      EntriesOf(hooks, id)
    }

    /** `add(id, priority)(func)`: stores `(priority, _index, func)` under
        `id`, moves the counter on by one and hands `func` back. */
    method Add(id: string, func: F, priority: int := 0) returns (g: F)
      requires Valid()
      modifies this
      ensures Valid()
      ensures g == func
      ensures hooks == AddEntry(old(hooks), old(nextIndex), Registration(id, priority, func))
      ensures nextIndex == old(nextIndex) + 1
      ensures importedHooks == old(importedHooks) && events == old(events)
    {
      AddEntryWellIndexed(hooks, nextIndex, Registration(id, priority, func));
      hooks := hooks[id := Entries(id) + [Entry(priority, nextIndex, func)]];
      nextIndex := nextIndex + 1;
      g := func;
    }

    /** `run(id)`: logs how many hooks it is about to run, then invokes the
        stored callables of `id` in run order. Reading `_hooks[id]` stores
        an empty list for an id never registered. */
    method Run(id: string) returns (funcs: seq<F>)
      requires Valid()
      modifies this
      ensures Valid()
      ensures hooks == old(hooks)[id := old(Entries(id))]
      ensures nextIndex == old(nextIndex) && importedHooks == old(importedHooks)
      ensures funcs == Callables(RunOrder(old(Entries(id))))
      ensures |funcs| == |old(Entries(id))|
      ensures events == old(events) + [RunningHooks(|funcs|, id)] + CallEvents(funcs)
    {
      var entries := Entries(id);
      TouchWellIndexed(hooks, nextIndex, id);
      hooks := hooks[id := entries];
      funcs := Callables(RunOrder(entries));
      events := events + [RunningHooks(|funcs|, id)];
      var calls := InvokeEach(funcs);
      events := events + calls;
    }

    /** `remove(id, func)`: keeps the entries of `id` whose callable is not
        `func`, in their order. */
    method Remove(id: string, func: F)
      requires Valid()
      modifies this
      ensures Valid()
      ensures hooks == old(hooks)[id := Without(old(Entries(id)), func)]
      ensures nextIndex == old(nextIndex) && importedHooks == old(importedHooks) && events == old(events)
    {
      var kept := KeepOthers(Entries(id), func);
      WithoutWellIndexed(hooks, nextIndex, id, func);
      hooks := hooks[id := kept];
    }

    /** The part of the state an import scan changes. */
    function State(): ScanState<F>
      reads this
    {
      ScanState(importedHooks, hooks, nextIndex, events)
    }

    /** The `add` calls `regs` made in order, as the top-level code of a
        hook module makes them. */
    method AddEach(regs: seq<Registration<F>>)
      requires Valid()
      modifies this
      ensures Valid()
      ensures hooks == AddAll(old(hooks), old(nextIndex), regs)
      ensures nextIndex == old(nextIndex) + |regs|
      ensures importedHooks == old(importedHooks) && events == old(events)
    {
      var k := 0;
      while k < |regs|
        invariant 0 <= k <= |regs|
        invariant Valid()
        invariant hooks == AddAll(old(hooks), old(nextIndex), regs[..k])
        invariant nextIndex == old(nextIndex) + k
        invariant importedHooks == old(importedHooks) && events == old(events)
      {
        var reg := regs[k];
        AddAllSnoc(old(hooks), old(nextIndex), regs[..k], reg);
        assert regs[..k + 1] == regs[..k] + [reg];
        var _ := Add(reg.id, reg.func, reg.priority);
        k := k + 1;
      }
      assert regs[..|regs|] == regs;
    }

    /** `importlib.import_module(name)`: runs the module's top-level code,
        whose `add` calls on this manager are `load(name)`. */
    method LoadModule(name: string, load: string -> seq<Registration<F>>)
      requires Valid()
      modifies this
      ensures Valid()
      ensures hooks == AddAll(old(hooks), old(nextIndex), load(name))
      ensures nextIndex == old(nextIndex) + |load(name)|
      ensures importedHooks == old(importedHooks)
      ensures events == old(events) + [ImportModule(name)]
    {
      events := events + [ImportModule(name)];
      AddEach(load(name));
    }

    /** The body of the scan for one hook file with module name `name`:
        import it unless it was imported before, record it, and log the
        growth of `imported_hooks`. */
    method ImportOnce(name: string, load: string -> seq<Registration<F>>)
      requires Valid()
      modifies this
      ensures Valid()
      ensures State() == ImportStep(old(State()), name, load)
    {
      var oldCount := |importedHooks|;
      if name !in importedHooks {
        LoadModule(name, load);
        importedHooks := importedHooks + {name};
        var newCount := |importedHooks|;
        events := events + [ImportedHooks(newCount - oldCount, name)];
      }
    }

    /** The inner loop of the scan over the files of one walked directory. */
    method ImportFromDir(dir: WalkedDir, load: string -> seq<Registration<F>>, fileSuffix: string)
      requires Valid()
      modifies this
      ensures Valid()
      ensures State() == ScanAll(old(State()), FileCandidates(dir.path, dir.files, fileSuffix), load)
    {
      var k := 0;
      while k < |dir.files|
        invariant 0 <= k <= |dir.files|
        invariant Valid()
        invariant State() == ScanAll(old(State()), FileCandidates(dir.path, dir.files[..k], fileSuffix), load)
      {
        FileCandidatesSnoc(dir.path, dir.files, k, fileSuffix);
        var file := dir.files[k];
        if FileMatches(file, fileSuffix) {
          var modName := ModuleName(dir.path, file);
          ScanAllSnoc(old(State()), FileCandidates(dir.path, dir.files[..k], fileSuffix), modName, load);
          ImportOnce(modName, load);
        } else {
          assert FileCandidates(dir.path, dir.files[..k + 1], fileSuffix) == FileCandidates(dir.path, dir.files[..k], fileSuffix);
        }
        k := k + 1;
      }
      assert dir.files[..|dir.files|] == dir.files;
    }

    /** `import_hooks(root_path, file_suffix)` over the walk `walk`: every
        hook file whose module name was not imported before is imported
        once, recorded, and logged with a count of 1. A scan that meets
        only names imported before changes nothing. */
    method ImportHooks(walk: seq<WalkedDir>, load: string -> seq<Registration<F>>, fileSuffix: string := "_hooks")
      requires Valid()
      modifies this
      ensures Valid()
      ensures State() == ScanAll(old(State()), Candidates(walk, fileSuffix), load)
      ensures importedHooks == old(importedHooks) + SetOf(Candidates(walk, fileSuffix))
      ensures var newNames := FreshImports(Candidates(walk, fileSuffix), old(importedHooks));
        && hooks == AddAll(old(hooks), old(nextIndex), RegistrationsOf(load, newNames))
        && nextIndex == old(nextIndex) + |RegistrationsOf(load, newNames)|
        && events == old(events) + ImportTrace(newNames)
      ensures SetOf(Candidates(walk, fileSuffix)) <= old(importedHooks) ==>
        hooks == old(hooks) && nextIndex == old(nextIndex) && events == old(events)
    {
      var d := 0;
      while d < |walk|
        invariant 0 <= d <= |walk|
        invariant Valid()
        invariant State() == ScanAll(old(State()), Candidates(walk[..d], fileSuffix), load)
      {
        CandidatesSnoc(walk, d, fileSuffix);
        ScanAllAppend(old(State()), Candidates(walk[..d], fileSuffix), FileCandidates(walk[d].path, walk[d].files, fileSuffix), load);
        ImportFromDir(walk[d], load, fileSuffix);
        d := d + 1;
      }
      assert walk[..|walk|] == walk;
      ImportedSummary(old(State()), Candidates(walk, fileSuffix), load);
    }
  }
}
