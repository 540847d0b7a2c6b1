/** The order in which `HookManager.run` invokes the hooks stored for one id.

    Each stored hook is the tuple `(priority, index, func)`; `run` sorts the
    tuples with `reverse=True`, so Python's lexicographic tuple comparison is
    applied in descending order: higher priority first and, on equal
    priority, the higher (later-registered) index first. */
module Ordering {

  /** One stored hook: the tuple pushed by `add`. */
  datatype Entry<F> = Entry(priority: int, index: nat, func: F)

  /** `a` comes before `b` in descending tuple order, decided on
      (priority, index) alone. */
  predicate Before<F>(a: Entry<F>, b: Entry<F>) {
    a.priority > b.priority || (a.priority == b.priority && a.index > b.index)
  }

  /** No two entries of `s` carry the same index, so sorting never has to
      compare two callables. */
  ghost predicate DistinctIndices<F>(s: seq<Entry<F>>) {
    forall i, j :: 0 <= i < j < |s| ==> s[i].index != s[j].index
  }

  /** Every entry of `s` comes before every later one. */
  ghost predicate InRunOrder<F>(s: seq<Entry<F>>) {
    forall i, j :: 0 <= i < j < |s| ==> Before(s[i], s[j])
  }

  /** Inserts `e` in front of the first entry it comes before. */
  function Insert<F>(e: Entry<F>, s: seq<Entry<F>>): (r: seq<Entry<F>>)
    ensures multiset(r) == multiset(s) + multiset{e}
    ensures |r| == |s| + 1
  {
    if s == [] || Before(e, s[0]) then [e] + s
    else
      assert s == [s[0]] + s[1..];
      [s[0]] + Insert(e, s[1..])
  }

  /** The stored entries in the order `sorted(..., reverse=True)` yields
      them (an insertion sort). */
  function RunOrder<F>(s: seq<Entry<F>>): (r: seq<Entry<F>>)
    ensures multiset(r) == multiset(s)
    ensures |r| == |s|
  {
    if s == [] then []
    else
      assert s == [s[0]] + s[1..];
      Insert(s[0], RunOrder(s[1..]))
  }

  /** The callables of the entries, in the same order: the comprehension
      `[func for _, _, func in ...]`. */
  function Callables<F>(s: seq<Entry<F>>): (r: seq<F>)
    ensures |r| == |s|
    ensures forall i :: 0 <= i < |s| ==> r[i] == s[i].func
  {
    if s == [] then [] else [s[0].func] + Callables(s[1..])
  }

  lemma {:induction false} InsertInRunOrder<F>(e: Entry<F>, s: seq<Entry<F>>)
    requires InRunOrder(s)
    requires forall x :: x in s ==> x.index != e.index
    ensures InRunOrder(Insert(e, s))
  {
    if s == [] || Before(e, s[0]) {
    } else {
      var tail := Insert(e, s[1..]);
      InsertInRunOrder(e, s[1..]);
      assert Before(s[0], e);
      forall x | x in tail ensures Before(s[0], x) {
        assert x in multiset(tail);
        if x != e {
          assert x in s[1..];
        }
      }
      var r := [s[0]] + tail;
      forall i, j | 0 <= i < j < |r| ensures Before(r[i], r[j]) {
        if i == 0 {
          assert r[j] in tail;
        } else {
          assert r[i] == tail[i - 1] && r[j] == tail[j - 1];
        }
      }
    }
  }

  /** When the stored indices are distinct (the registry's invariant), the
      run order is strictly descending in (priority, index): a higher
      priority always runs first, and among equal priorities the later
      registration runs first. */
  lemma {:induction false} RunOrderIsDescending<F>(s: seq<Entry<F>>)
    requires DistinctIndices(s)
    ensures InRunOrder(RunOrder(s))
    ensures forall i, j :: 0 <= i < j < |s| ==>
      RunOrder(s)[i].priority > RunOrder(s)[j].priority ||
      (RunOrder(s)[i].priority == RunOrder(s)[j].priority && RunOrder(s)[i].index > RunOrder(s)[j].index)
  {
    if s != [] {
      var tail := s[1..];
      assert DistinctIndices(tail) by {
        forall i, j | 0 <= i < j < |tail| ensures tail[i].index != tail[j].index {
          assert tail[i] == s[i + 1] && tail[j] == s[j + 1];
        }
      }
      RunOrderIsDescending(tail);
      forall x | x in RunOrder(tail) ensures x.index != s[0].index {
        assert x in multiset(RunOrder(tail));
        assert x in tail;
        var k :| 0 <= k < |tail| && tail[k] == x;
        assert s[k + 1] == x;
      }
      InsertInRunOrder(s[0], RunOrder(tail));
    }
  }

  /** An entry whose index is above every other stored index runs after
      every entry of higher priority and before every other entry of the
      same or a lower priority. */
  lemma NewestRunsFirstAmongEquals<F>(s: seq<Entry<F>>, e: Entry<F>)
    requires DistinctIndices(s) && e in s
    requires forall k :: 0 <= k < |s| && s[k] != e ==> s[k].index < e.index
    ensures var r := RunOrder(s);
      && e in r
      && forall i, j :: 0 <= i < |r| && 0 <= j < |r| && r[i] == e && j != i ==>
           (i < j <==> r[j].priority <= e.priority)
  {
    var r := RunOrder(s);
    RunOrderIsDescending(s);
    assert e in multiset(r);
    forall i, j | 0 <= i < |r| && 0 <= j < |r| && r[i] == e && j != i
      ensures i < j <==> r[j].priority <= e.priority
    {
      assert r[j] != e by {
        if i < j { assert Before(r[i], r[j]); } else { assert Before(r[j], r[i]); }
      }
      assert r[j] in multiset(s);
      var k :| 0 <= k < |s| && s[k] == r[j];
    }
  }

  lemma TailInRunOrder<F>(a: seq<Entry<F>>)
    requires InRunOrder(a) && a != []
    ensures InRunOrder(a[1..])
  {
    forall i, j | 0 <= i < j < |a| - 1 ensures Before(a[1..][i], a[1..][j]) {
      assert a[1..][i] == a[i + 1] && a[1..][j] == a[j + 1];
    }
  }

  /** The entry that runs first is the one that comes before all others. */
  lemma SameFirst<F>(a: seq<Entry<F>>, b: seq<Entry<F>>)
    requires InRunOrder(a) && InRunOrder(b)
    requires multiset(a) == multiset(b) && a != []
    ensures b != [] && a[0] == b[0]
  {
    assert a[0] in multiset(b);
    var k :| 0 <= k < |b| && b[k] == a[0];
    assert b[0] in multiset(a);
    var m :| 0 <= m < |a| && a[m] == b[0];
  }

  /** A sequence in run order is determined by its multiset of entries:
      there is exactly one way to order a given collection of entries. */
  lemma {:induction false} RunOrderIsUnique<F>(a: seq<Entry<F>>, b: seq<Entry<F>>)
    requires InRunOrder(a) && InRunOrder(b)
    requires multiset(a) == multiset(b)
    ensures a == b
  {
    if a == [] {
      assert |b| == |multiset(b)| == 0;
    } else {
      SameFirst(a, b);
      assert a == [a[0]] + a[1..] && b == [b[0]] + b[1..];
      assert multiset(a[1..]) == multiset(a) - multiset{a[0]};
      assert multiset(b[1..]) == multiset(b) - multiset{b[0]};
      TailInRunOrder(a);
      TailInRunOrder(b);
      RunOrderIsUnique(a[1..], b[1..]);
    }
  }

  /** `run` sorts fully, so the order in which the entries happen to be
      stored (a heap in the source, a plain sequence here) never changes
      what runs: any two storages holding the same entries give the same
      run order. */
  lemma RunOrderIgnoresStorageOrder<F>(s: seq<Entry<F>>, t: seq<Entry<F>>)
    requires DistinctIndices(s) && DistinctIndices(t)
    requires multiset(s) == multiset(t)
    ensures RunOrder(s) == RunOrder(t)
  {
    RunOrderIsDescending(s);
    RunOrderIsDescending(t);
    RunOrderIsUnique(RunOrder(s), RunOrder(t));
  }

  lemma {:induction false} CallablesOfInsert<F>(e: Entry<F>, s: seq<Entry<F>>)
    ensures multiset(Callables(Insert(e, s))) == multiset(Callables(s)) + multiset{e.func}
  {
    if s == [] || Before(e, s[0]) {
      assert Callables([e] + s) == [e.func] + Callables(s);
    } else {
      CallablesOfInsert(e, s[1..]);
      assert Callables([s[0]] + Insert(e, s[1..])) == [s[0].func] + Callables(Insert(e, s[1..]));
      assert Callables(s) == [s[0].func] + Callables(s[1..]);
    }
  }

  /** `run` invokes every stored entry exactly once: a callable stored
      twice is invoked twice, and the number invoked is the number stored. */
  lemma {:induction false} RunInvokesEachEntryOnce<F>(s: seq<Entry<F>>)
    ensures multiset(Callables(RunOrder(s))) == multiset(Callables(s))
    ensures |Callables(RunOrder(s))| == |s|
  {
    if s != [] {
      var tail := RunOrder(s[1..]);
      RunInvokesEachEntryOnce(s[1..]);
      CallablesOfInsert(s[0], tail);
      assert RunOrder(s) == Insert(s[0], tail);
      assert Callables(s) == [s[0].func] + Callables(s[1..]);
      assert multiset(Callables(s)) == multiset{s[0].func} + multiset(Callables(s[1..]));
    }
  }
}
