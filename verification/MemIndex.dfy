// MemPostings of pkg/inverted/index/postings.go: label name -> label value -> list of ids.

module MemIndex {
  import opened IteratorViews
  import opened Iterators

  datatype Label = Label(name: string, value: string)

  type Table = map<string, map<string, seq<nat>>>

  const ALL_POSTINGS_KEY := Label("", "")

  function Lookup(m: Table, l: Label): seq<nat> {
    if l.name in m && l.value in m[l.name] then m[l.name][l.value] else []
  }

  function ValuesOf(m: Table, name: string): set<string> {
    if name in m then m[name].Keys else {}
  }

  function Count(m: Table, l: Label, id: nat): nat {
    multiset(Lookup(m, l))[id]
  }

  function Put(m: Table, l: Label, list: seq<nat>): Table {
    m[l.name := (if l.name in m then m[l.name] else map[])[l.value := list]]
  }

  /** No list and no name entry is empty; once the store is ordered every list is sorted. */
  ghost predicate Tidy(m: Table, ordered: bool) {
    forall n :: n in m ==>
      m[n] != map[] && forall v :: v in m[n] ==> m[n][v] != [] && (ordered ==> Sorted(m[n][v]))
  }

  /** The calls made on a store, oldest first. */
  datatype Op = AddOp(id: nat, lset: seq<Label>) | DeleteOp(ids: set<nat>) | OrderOp

  /** How often the id was added under the label and not deleted since. */
  function Standing(log: seq<Op>, l: Label, id: nat): nat {
    if log == [] then 0 else
      var before := Standing(log[..|log| - 1], l, id);
      match log[|log| - 1]
      case AddOp(i, lset) => before + if i == id then multiset(lset + [ALL_POSTINGS_KEY])[l] else 0
      case DeleteOp(ids) => if id in ids then 0 else before
      case OrderOp => before
  }

  /** An id stands under a label iff it was added there and no later call deleted it. */
  lemma {:induction false} StandingMeans(log: seq<Op>, l: Label, id: nat)
    ensures Standing(log, l, id) > 0 <==> exists i :: AddedAt(log, i, l, id) && !DeletedAfter(log, i, id)
  {
    if log != [] {
      var n := |log| - 1;
      var before := log[..n];
      StandingMeans(before, l, id);
      assert forall i :: 0 <= i < n ==> before[i] == log[i];
      if Standing(before, l, id) > 0 && !(log[n].DeleteOp? && id in log[n].ids) {
        var i :| AddedAt(before, i, l, id) && !DeletedAfter(before, i, id);
        assert AddedAt(log, i, l, id);
        forall j | i < j < |log| ensures !(log[j].DeleteOp? && id in log[j].ids) {
          assert j < n ==> before[j] == log[j];
        }
      }
      if i :| AddedAt(log, i, l, id) && !DeletedAfter(log, i, id) {
        if i < n {
          assert AddedAt(before, i, l, id);
          assert !DeletedAfter(before, i, id);
        }
      }
      if log[n].AddOp? && log[n].id == id && l in log[n].lset + [ALL_POSTINGS_KEY] {
        assert AddedAt(log, n, l, id) && !DeletedAfter(log, n, id);
      }
    }
  }

  ghost predicate AddedAt(log: seq<Op>, i: int, l: Label, id: nat) {
    0 <= i < |log| && log[i].AddOp? && log[i].id == id && l in log[i].lset + [ALL_POSTINGS_KEY]
  }

  ghost predicate DeletedAfter(log: seq<Op>, i: int, id: nat) {
    exists j :: 0 <= i < j < |log| && log[j].DeleteOp? && id in log[j].ids
  }

  /** Whatever stands under a label stands under the key of all postings. */
  lemma {:induction false} AllStand(log: seq<Op>, l: Label, id: nat)
    ensures Standing(log, l, id) > 0 ==> Standing(log, ALL_POSTINGS_KEY, id) > 0
  {
    if log != [] {
      AllStand(log[..|log| - 1], l, id);
    }
  }

  /** Every list holds exactly the ids that stand, as often as they were added. */
  ghost predicate Records(m: Table, log: seq<Op>) {
    forall l, id :: Count(m, l, id) == Standing(log, l, id)
  }

  /** The list without the deleted ids. */
  function Keep(s: seq<nat>, deleted: set<nat>): seq<nat> {
    if s == [] then [] else
      var rest := Keep(s[..|s| - 1], deleted);
      if s[|s| - 1] in deleted then rest else rest + [s[|s| - 1]]
  }

  lemma {:induction false} KeepCounts(s: seq<nat>, deleted: set<nat>, id: nat)
    ensures multiset(Keep(s, deleted))[id] == if id in deleted then 0 else multiset(s)[id]
  {
    if s != [] {
      KeepCounts(s[..|s| - 1], deleted, id);
      assert s == s[..|s| - 1] + [s[|s| - 1]];
    }
  }

  lemma {:induction false} KeepSorted(s: seq<nat>, deleted: set<nat>)
    requires Sorted(s)
    ensures Sorted(Keep(s, deleted)) && forall y :: y in Keep(s, deleted) ==> y in s
  {
    if s != [] {
      var t := s[..|s| - 1];
      KeepSorted(t, deleted);
      var rest := Keep(t, deleted);
      forall i | 0 <= i < |rest| ensures rest[i] in s && rest[i] <= s[|s| - 1] {
        assert rest[i] in rest;
        var k :| 0 <= k < |t| && t[k] == rest[i];
        assert s[k] == rest[i];
      }
    }
  }

  lemma {:induction false} KeepAll(s: seq<nat>, deleted: set<nat>)
    requires forall y :: y in s ==> y !in deleted
    ensures Keep(s, deleted) == s
  {
    if s != [] {
      KeepAll(s[..|s| - 1], deleted);
      assert s == s[..|s| - 1] + [s[|s| - 1]];
    }
  }

  /** Sorted but for the id at i, which may be too far to the right. */
  ghost predicate Sinking(list: seq<nat>, i: nat) {
    i < |list| && forall a, b :: 0 <= a < b < |list| && b != i ==> list[a] <= list[b]
  }

  lemma SinkStep(list: seq<nat>, i: nat)
    requires Sinking(list, i) && i >= 1 && list[i] < list[i - 1]
    ensures Sinking(Swap(list, i, i - 1), i - 1)
  {
  }

  lemma SinkDone(list: seq<nat>, i: nat)
    requires Sinking(list, i) && (i >= 1 ==> list[i - 1] <= list[i])
    ensures Sorted(list)
  {
  }

  /** An id appended to a sorted list sinks to its place by swaps. */
  method SinkLast(s: seq<nat>) returns (list: seq<nat>)
    requires s != [] && Sorted(s[..|s| - 1])
    ensures Sorted(list) && multiset(list) == multiset(s) && |list| == |s|
  {
    list := s;
    var i: nat := |list| - 1;
    assert forall a :: 0 <= a < i ==> s[a] == s[..i][a];
    while i >= 1 && list[i] < list[i - 1]
      invariant |list| == |s| && multiset(list) == multiset(s) && Sinking(list, i)
    {
      SinkStep(list, i);
      list := Swap(list, i, i - 1);
      i := i - 1;
    }
    SinkDone(list, i);
  }

  lemma PutOne(m: Table, ordered: bool, l: Label, list: seq<nat>)
    requires Tidy(m, ordered) && list != [] && (ordered ==> Sorted(list))
    ensures Tidy(Put(m, l, list), ordered)
    ensures forall k :: Lookup(Put(m, l, list), k) == if k == l then list else Lookup(m, k)
  {
    assert l.value in Put(m, l, list)[l.name];
  }

  /** The id has been added once under each of the labels. */
  ghost predicate Added(m: Table, m': Table, id: nat, ls: seq<Label>) {
    forall l, i :: Count(m', l, i) == Count(m, l, i) + if i == id then multiset(ls)[l] else 0
  }

  lemma AddedOne(m: Table, ordered: bool, l: Label, id: nat, list: seq<nat>)
    requires Tidy(m, ordered) && list != [] && (ordered ==> Sorted(list))
    requires multiset(list) == multiset(Lookup(m, l) + [id])
    ensures Tidy(Put(m, l, list), ordered) && Added(m, Put(m, l, list), id, [l])
  {
    PutOne(m, ordered, l, list);
    forall k, i ensures Count(Put(m, l, list), k, i) == Count(m, k, i) + if i == id then multiset([l])[k] else 0 {
      assert multiset(Lookup(m, l) + [id])[i] == multiset(Lookup(m, l))[i] + multiset([id])[i];
    }
  }

  lemma AddedMore(m: Table, m1: Table, m2: Table, id: nat, ls: seq<Label>, l: Label)
    requires Added(m, m1, id, ls) && Added(m1, m2, id, [l])
    ensures Added(m, m2, id, ls + [l])
  {
    forall k, i ensures Count(m2, k, i) == Count(m, k, i) + if i == id then multiset(ls + [l])[k] else 0 {
      assert Count(m2, k, i) == Count(m1, k, i) + if i == id then multiset([l])[k] else 0;
    }
  }

  lemma AddRecorded(m: Table, m': Table, log: seq<Op>, id: nat, lset: seq<Label>)
    requires Records(m, log) && Added(m, m', id, lset + [ALL_POSTINGS_KEY])
    ensures Records(m', log + [AddOp(id, lset)])
  {
    var log' := log + [AddOp(id, lset)];
    assert log'[..|log'| - 1] == log;
    forall l, i ensures Count(m', l, i) == Standing(log', l, i) {
      assert Count(m, l, i) == Standing(log, l, i);
    }
  }

  function NamedValues(ls: seq<Label>, name: string): set<string> {
    set l | l in ls && l.name == name :: l.value
  }

  lemma NamedMore(ls: seq<Label>, l: Label)
    ensures forall n :: NamedValues(ls + [l], n) == NamedValues(ls, n) + if n == l.name then {l.value} else {}
  {
    forall n ensures NamedValues(ls + [l], n) == NamedValues(ls, n) + if n == l.name then {l.value} else {} {
      forall v | v in NamedValues(ls, n) ensures v in NamedValues(ls + [l], n) {
        var k :| k in ls && k.name == n && k.value == v;
        assert k in ls + [l];
      }
      assert l in ls + [l];
    }
  }

  /** Every list has lost exactly the deleted ids. */
  ghost predicate Dropped(m: Table, m': Table, deleted: set<nat>) {
    forall l :: Lookup(m', l) == Keep(Lookup(m, l), deleted)
  }

  /** The lists of the names in `ns` have lost the deleted ids, and of the name n those of the values in `vs`. */
  ghost predicate DroppedIn(m: Table, m': Table, deleted: set<nat>, ns: set<string>, n: string, vs: set<string>) {
    forall l :: Lookup(m', l) ==
      if l.name in ns || (l.name == n && l.value in vs) then Keep(Lookup(m, l), deleted) else Lookup(m, l)
  }

  /** Tidy, but the name n may have lost all its lists. */
  ghost predicate TidyBut(m: Table, ordered: bool, n: string) {
    forall k :: k in m ==>
      (k == n || m[k] != map[]) && forall v :: v in m[k] ==> m[k][v] != [] && (ordered ==> Sorted(m[k][v]))
  }

  lemma KeepShorter(m: Table, m': Table, ordered: bool, deleted: set<nat>, ns: set<string>, n: string, vs: set<string>,
                    v: string, m2: Table)
    requires DroppedIn(m, m', deleted, ns, n, vs) && TidyBut(m', ordered, n)
    requires n in m' && v in m'[n] && n !in ns && v !in vs
    requires var repl := Keep(m'[n][v], deleted);
             m2 == m'[n := if repl == [] then m'[n] - {v} else m'[n][v := repl]]
    ensures DroppedIn(m, m2, deleted, ns, n, vs + {v}) && TidyBut(m2, ordered, n)
  {
    assert Lookup(m', Label(n, v)) == Lookup(m, Label(n, v));
    if ordered {
      KeepSorted(m'[n][v], deleted);
    }
    forall k, w | k in m2 && w in m2[k]
      ensures m2[k][w] != [] && (ordered ==> Sorted(m2[k][w]))
    {
      assert k in m' && w in m'[k];
    }
  }

  lemma DropRecorded(m: Table, m': Table, log: seq<Op>, deleted: set<nat>)
    requires Records(m, log) && Dropped(m, m', deleted)
    ensures Records(m', log + [DeleteOp(deleted)])
  {
    var log' := log + [DeleteOp(deleted)];
    assert log'[..|log'| - 1] == log;
    forall l, i ensures Count(m', l, i) == Standing(log', l, i) {
      KeepCounts(Lookup(m, l), deleted, i);
      assert Count(m, l, i) == Standing(log, l, i);
    }
  }

  lemma DroppedWhole(m: Table, m1: Table, m2: Table, ordered: bool, deleted: set<nat>, ns: set<string>, n: string)
    requires DroppedIn(m, m1, deleted, ns, n, {}) && n in m1 && n !in ns
    requires DroppedIn(m, m2, deleted, ns, n, m1[n].Keys) && TidyBut(m2, ordered, n) && n in m2
    ensures var m3 := if m2[n] == map[] then m2 - {n} else m2;
            Tidy(m3, ordered) && DroppedIn(m, m3, deleted, ns + {n}, n, {})
  {
    var m3 := if m2[n] == map[] then m2 - {n} else m2;
    forall l
      ensures Lookup(m3, l) == if l.name in ns + {n} then Keep(Lookup(m, l), deleted) else Lookup(m, l)
    {
      assert Lookup(m3, l) == Lookup(m2, l);
      if l.name == n && l.value !in m1[n].Keys {
        assert Lookup(m1, l) == Lookup(m, l) == [];
      }
    }
  }

  /** Every list is a rearrangement of what it was. */
  ghost predicate SameCounts(m: Table, m': Table) {
    forall l, id :: Count(m', l, id) == Count(m, l, id)
  }

  /** EnsureOrder has sorted every list but those of `todo`. */
  ghost predicate Sorting(m0: Table, m: Table, todo: set<Label>) {
    && Tidy(m, false) && SameCounts(m0, m) && (forall n :: ValuesOf(m, n) == ValuesOf(m0, n))
    && (forall l :: l in todo ==> l.name in m && l.value in m[l.name])
    && (forall n, v :: n in m && v in m[n] ==> Label(n, v) in todo || Sorted(m[n][v]))
  }

  lemma SortedOne(m0: Table, m: Table, todo: set<Label>, l: Label, list: seq<nat>)
    requires Sorting(m0, m, todo + {l}) && l !in todo
    requires Sorted(list) && multiset(list) == multiset(m[l.name][l.value]) && |list| == |m[l.name][l.value]|
    ensures Sorting(m0, Put(m, l, list), todo)
  {
    PutOne(m, false, l, list);
  }

  lemma OrderRecorded(m0: Table, m: Table, log: seq<Op>)
    requires Records(m0, log) && SameCounts(m0, m)
    ensures Records(m, log + [OrderOp])
  {
    var log' := log + [OrderOp];
    assert log'[..|log'| - 1] == log;
    forall l, id ensures Count(m, l, id) == Standing(log', l, id) {
      assert Count(m0, l, id) == Standing(log, l, id);
    }
  }

  /** The label pairs that have a list. */
  function Pairs(m: Table): set<Label> {
    set n, v | n in m && v in m[n] :: Label(n, v)
  }

  /** The loops of EnsureOrder and of its workers, one list at a time in any order. */
  method SortAll(m0: Table) returns (m: Table)
    requires Tidy(m0, false)
    ensures Sorting(m0, m, {})
  {
    m := m0;
    var todo := Pairs(m);
    while todo != {}
      invariant Sorting(m0, m, todo)
      decreases todo
    {
      var l :| l in todo;
      assert todo == todo - {l} + {l};
      todo := todo - {l};
      var list := SortIds(m[l.name][l.value]);
      SortedOne(m0, m, todo, l, list);
      m := Put(m, l, list);
    }
  }

  method SortIds(s: seq<nat>) returns (list: seq<nat>)
    ensures Sorted(list) && multiset(list) == multiset(s) && |list| == |s|
  {
    list := [];
    for i := 0 to |s|
      invariant Sorted(list) && multiset(list) == multiset(s[..i]) && |list| == i
    {
      assert (list + [s[i]])[..|list|] == list;
      assert s[..i + 1] == s[..i] + [s[i]];
      list := SinkLast(list + [s[i]]);
    }
    assert s[..|s|] == s;
  }

  class MemPostings {
    var m: Table
    var ordered: bool
    ghost var log: seq<Op>

    ghost predicate Valid()
      reads this
    {
      Tidy(m, ordered) && Records(m, log)
    }

    constructor (ordered: bool)
      ensures Valid() && log == [] && m == map[] && this.ordered == ordered
    {
      this.ordered := ordered;
      m := map[];
      log := [];
    }

    method AddFor(id: nat, l: Label)
      requires Tidy(m, ordered)
      modifies this`m
      ensures Tidy(m, ordered) && Added(old(m), m, id, [l])
      ensures forall n :: ValuesOf(m, n) == ValuesOf(old(m), n) + if n == l.name then {l.value} else {}
    {
      var list := Lookup(m, l) + [id];
      if ordered {
        assert list[..|list| - 1] == Lookup(m, l);
        list := SinkLast(list);
      }
      AddedOne(m, ordered, l, id, list);
      m := Put(m, l, list);
    }

    method Add(id: nat, lset: seq<Label>)
      requires Valid()
      modifies this
      ensures Valid() && ordered == old(ordered) && log == old(log) + [AddOp(id, lset)]
      ensures forall n :: n != "" ==> ValuesOf(m, n) == ValuesOf(old(m), n) + NamedValues(lset, n)
    {
      for k := 0 to |lset|
        invariant Tidy(m, ordered) && ordered == old(ordered) && log == old(log)
        invariant Added(old(m), m, id, lset[..k])
        invariant forall n :: ValuesOf(m, n) == ValuesOf(old(m), n) + NamedValues(lset[..k], n)
      {
        ghost var m1 := m;
        AddFor(id, lset[k]);
        AddedMore(old(m), m1, m, id, lset[..k], lset[k]);
        assert lset[..k + 1] == lset[..k] + [lset[k]];
        NamedMore(lset[..k], lset[k]);
      }
      assert lset[..|lset|] == lset;
      ghost var m1 := m;
      AddFor(id, ALL_POSTINGS_KEY);
      AddedMore(old(m), m1, m, id, lset, ALL_POSTINGS_KEY);
      AddRecorded(old(m), m, log, id, lset);
      log := log + [AddOp(id, lset)];
    }

    lemma HoldsAll(l: Label)
      requires Valid()
      ensures Elems(Lookup(m, l)) <= Elems(Lookup(m, ALL_POSTINGS_KEY))
    {
      forall id | id in Lookup(m, l) ensures id in Lookup(m, ALL_POSTINGS_KEY) {
        assert Count(m, l, id) == Standing(log, l, id) && Count(m, l, id) > 0;
        AllStand(log, l, id);
        assert Count(m, ALL_POSTINGS_KEY, id) == Standing(log, ALL_POSTINGS_KEY, id);
      }
    }

    /** The body of the loop of Delete over the values of one name. */
    method DeleteFrom(n: string, v: string, deleted: set<nat>)
      requires n in m && v in m[n]
      modifies this`m
      ensures var repl := Keep(old(m)[n][v], deleted);
              m == old(m)[n := if repl == [] && old(m)[n][v] != [] then old(m)[n] - {v} else old(m)[n][v := repl]]
    {
      var list := m[n][v];
      var found := false;
      for i := 0 to |list|
        invariant found == exists k :: 0 <= k < i && list[k] in deleted
      {
        if list[i] in deleted {
          found := true;
          break;
        }
      }
      if !found {
        KeepAll(list, deleted);
        assert m[n][v := list] == m[n] && m[n := m[n]] == m;
        return;
      }
      var repl := [];
      for i := 0 to |list|
        invariant repl == Keep(list[..i], deleted)
      {
        assert list[..i + 1][..i] == list[..i];
        if list[i] !in deleted {
          repl := repl + [list[i]];
        }
      }
      assert list[..|list|] == list;
      if |repl| > 0 {
        m := m[n := m[n][v := repl]];
      } else {
        m := m[n := m[n] - {v}];
      }
    }

    /** The loop of Delete over the values of one name. */
    method DeleteFromName(n: string, deleted: set<nat>, ghost m0: Table, ghost ns: set<string>)
      requires n in m && n !in ns && Tidy(m, ordered) && DroppedIn(m0, m, deleted, ns, n, {})
      modifies this`m
      ensures Tidy(m, ordered) && DroppedIn(m0, m, deleted, ns + {n}, n, {})
      ensures forall k :: k != n ==> (k in m <==> k in old(m))
    {
      var vals := m[n].Keys;
      ghost var vs, m1 := {}, m;
      while vals != {}
        invariant TidyBut(m, ordered, n) && DroppedIn(m0, m, deleted, ns, n, vs)
        invariant n in m && vals !! vs && vals + vs == m1[n].Keys && vals <= m[n].Keys && m.Keys == m1.Keys
        decreases vals
      {
        var v :| v in vals;
        vals := vals - {v};
        ghost var m2 := m;
        DeleteFrom(n, v, deleted);
        KeepShorter(m0, m2, ordered, deleted, ns, n, vs, v, m);
        vs := vs + {v};
      }
      DroppedWhole(m0, m1, m, ordered, deleted, ns, n);
      if m[n] == map[] {
        m := m - {n};
      }
    }

    method Delete(deleted: set<nat>)
      requires Valid()
      modifies this
      ensures Valid() && ordered == old(ordered) && log == old(log) + [DeleteOp(deleted)]
    {
      var keys := m.Keys;
      ghost var m0, ns: set<string> := m, {};
      while keys != {}
        invariant Tidy(m, ordered) && ordered == old(ordered) && log == old(log)
        invariant DroppedIn(m0, m, deleted, ns, "", {})
        invariant keys !! ns && keys + ns == m0.Keys && keys <= m.Keys
        decreases keys
      {
        var n :| n in keys;
        keys := keys - {n};
        DeleteFromName(n, deleted, m0, ns);
        ns := ns + {n};
      }
      assert Dropped(m0, m, deleted) by {
        forall l ensures Lookup(m, l) == Keep(Lookup(m0, l), deleted) {
          assert l.name !in ns ==> Lookup(m0, l) == [];
        }
      }
      DropRecorded(m0, m, log, deleted);
      log := log + [DeleteOp(deleted)];
    }

    /** Sorts every list of a store filled in any order; the parallel workers run one after the other. */
    method EnsureOrder()
      requires Valid()
      modifies this
      ensures Valid() && ordered && log == if old(ordered) then old(log) else old(log) + [OrderOp]
      ensures forall n :: ValuesOf(m, n) == ValuesOf(old(m), n)
    {
      if ordered {
        return;
      }
      ghost var m0 := m;
      m := SortAll(m);
      ordered := true;
      OrderRecorded(m0, m, log);
      log := log + [OrderOp];
    }

    /** A fresh iterator over the list of one label pair. */
    method Get(name: string, value: string) returns (p: Postings)
      requires Valid() && Sorted(Lookup(m, Label(name, value)))
      ensures Free(p) && p.v.Unread() && p.steady && fresh(p.Repr)
      ensures p.v.todo == Elems(Lookup(m, Label(name, value)))
    {
      if name in m && value in m[name] {
        p := new Postings.NewList(m[name][value]);
      } else {
        p := new Postings.NewEmpty();
      }
    }
  }
}
