// HeadIndexReader of pkg/inverted/head.go.

module Head {
  import opened IteratorViews
  import opened Iterators
  import opened PostingsOps
  import opened MemIndex

  function ValueSet(values: map<string, set<string>>, name: string): set<string> {
    if name in values then values[name] else {}
  }

  /** The ids under any of the values of one label name. */
  function Ids(m: Table, name: string, vs: set<string>): set<nat> {
    set v, id | v in vs && id in Lookup(m, Label(name, v)) :: id
  }

  function AsSet(s: seq<string>): set<string> {
    set v | v in s
  }

  function PutValue(values: map<string, set<string>>, l: Label): map<string, set<string>> {
    values[l.name := ValueSet(values, l.name) + {l.value}]
  }

  /** The map holds what it held and the values of the labels. */
  ghost predicate Covers(before: map<string, set<string>>, values: map<string, set<string>>, ls: seq<Label>) {
    forall n :: ValueSet(values, n) == ValueSet(before, n) + NamedValues(ls, n)
  }

  lemma CoversMore(before: map<string, set<string>>, values: map<string, set<string>>, ls: seq<Label>, l: Label)
    requires Covers(before, values, ls)
    ensures Covers(before, PutValue(values, l), ls + [l])
  {
    NamedMore(ls, l);
    forall n ensures ValueSet(PutValue(values, l), n) == ValueSet(before, n) + NamedValues(ls + [l], n) {
      assert ValueSet(values, n) == ValueSet(before, n) + NamedValues(ls, n);
    }
  }

  /** The loop of GetOrCreateWithID over the labels. */
  method AddValues(before: map<string, set<string>>, lset: seq<Label>) returns (values: map<string, set<string>>)
    ensures Covers(before, values, lset)
  {
    values := before;
    for k := 0 to |lset|
      invariant Covers(before, values, lset[..k])
    {
      CoversMore(before, values, lset[..k], lset[k]);
      assert lset[..k + 1] == lset[..k] + [lset[k]];
      values := PutValue(values, lset[k]);
    }
    assert lset[..|lset|] == lset;
  }

  /** DeleteWithIDs builds the values anew from the lists, taken in any order. */
  method Rebuild(m: Table) returns (values: map<string, set<string>>)
    ensures forall n :: ValueSet(values, n) == ValuesOf(m, n)
  {
    values := map[];
    var pairs := Pairs(m);
    ghost var done: seq<Label> := [];
    while pairs != {}
      invariant Covers(map[], values, done) && pairs <= Pairs(m)
      invariant forall l :: l in Pairs(m) <==> l in pairs || l in done
      decreases pairs
    {
      var l :| l in pairs;
      pairs := pairs - {l};
      CoversMore(map[], values, done, l);
      values := PutValue(values, l);
      done := done + [l];
    }
    forall n ensures ValueSet(values, n) == ValuesOf(m, n) {
      assert ValueSet(values, n) == ValueSet(map[], n) + NamedValues(done, n);
      assert forall v :: v in ValuesOf(m, n) <==> Label(n, v) in Pairs(m);
      assert forall v :: v in NamedValues(done, n) <==> Label(n, v) in done;
    }
  }

  lemma FreeSnoc(ps: seq<Postings>, q: Postings)
    requires Batch(ps)
    requires Free(q) && q.v.Unread() && q.steady && Footprint(ps) !! q.Repr
    ensures Batch(ps + [q])
    ensures Footprint(ps + [q]) == Footprint(ps) + q.Repr
  {
    var qs := ps + [q];
    forall i, j | 0 <= i < j < |qs| ensures qs[i].Repr !! qs[j].Repr {
      if j == |ps| {
        assert qs[i].Repr <= Footprint(ps);
      }
    }
    forall o | o in q.Repr ensures o in Footprint(qs) {
      assert qs[|ps|] == q;
    }
    forall o | o in Footprint(ps) ensures o in Footprint(qs) {
      var i :| 0 <= i < |ps| && o in ps[i].Repr;
      assert qs[i] == ps[i];
    }
  }

  class HeadIndexReader {
    var postings: MemPostings
    var values: map<string, set<string>>
    var symbols: set<string>

    /** Under every label name, the values on record are those whose list holds an id. */
    ghost predicate Valid()
      reads this, postings
    {
      && postings.Valid() && postings.ordered
      && forall n :: n != "" ==> ValueSet(values, n) == ValuesOf(postings.m, n)
    }

    constructor ()
      ensures Valid() && fresh(postings) && postings.log == [OrderOp] && symbols == {}
    {
      var p := new MemPostings(false);
      p.EnsureOrder();
      values := map[];
      symbols := {};
      postings := p;
    }

    method GetOrCreateWithID(id: nat, hash: string, lset: seq<Label>)
      requires Valid()
      modifies this, postings
      ensures Valid() && postings == old(postings) && symbols == old(symbols) + {hash}
      ensures postings.log == old(postings.log) + [AddOp(id, lset)]
    {
      values := AddValues(values, lset);
      symbols := symbols + {hash};
      postings.Add(id, lset);
    }

    method DeleteWithIDs(ids: set<nat>, hashes: set<string>)
      requires Valid()
      modifies this, postings
      ensures Valid() && postings == old(postings) && symbols == old(symbols) - hashes
      ensures postings.log == old(postings.log) + [DeleteOp(ids)]
    {
      postings.Delete(ids);
      symbols := symbols - hashes;
      values := Rebuild(postings.m);
    }

    method Reset(newH: HeadIndexReader)
      requires newH.Valid()
      modifies this
      ensures Valid() && postings == newH.postings && values == newH.values && symbols == newH.symbols
    {
      symbols, values, postings := newH.symbols, newH.values, newH.postings;
    }

    /** The values under one name, each once, in no particular order. */
    method LabelValues(name: string) returns (sl: seq<string>)
      requires Valid()
      ensures AsSet(sl) == ValueSet(values, name) && (name != "" ==> AsSet(sl) == ValuesOf(postings.m, name))
      ensures |sl| == |ValueSet(values, name)|
    {
      var todo := ValueSet(values, name);
      sl := [];
      while todo != {}
        invariant AsSet(sl) + todo == ValueSet(values, name) && AsSet(sl) !! todo
        invariant |sl| + |todo| == |ValueSet(values, name)|
        decreases todo
      {
        var s :| s in todo;
        todo := todo - {s};
        sl := sl + [s];
      }
    }

    /** A fresh iterator over the union of the lists of the given values. */
    method Postings(name: string, vals: seq<string>) returns (p: Postings)
      requires Valid()
      ensures Free(p) && p.v.Unread() && p.steady && fresh(p.Repr)
      ensures p.v.todo == Ids(postings.m, name, AsSet(vals))
    {
      var res := Lists(name, vals);
      p := Merge(res);
    }

    /** The loop of Postings over the values. */
    method Lists(name: string, vals: seq<string>) returns (res: seq<Postings>)
      requires Valid()
      ensures Batch(res) && fresh(Footprint(res))
      ensures UnionTodo(Views(res)) == Ids(postings.m, name, AsSet(vals))
    {
      res := [];
      for k := 0 to |vals|
        invariant Batch(res) && fresh(Footprint(res))
        invariant ListsOf(postings.m, name, vals[..k], Views(res))
      {
        assert vals[..k + 1] == vals[..k] + [vals[k]];
        res := OneMore(name, vals[..k], res, vals[k]);
      }
      assert vals[..|vals|] == vals;
      ListsUnion(postings.m, name, vals, Views(res));
    }

    method OneMore(name: string, ghost vals: seq<string>, res: seq<Postings>, val: string) returns (res': seq<Postings>)
      requires Valid() && Batch(res) && ListsOf(postings.m, name, vals, Views(res))
      ensures Batch(res') && fresh(Footprint(res') - Footprint(res))
      ensures ListsOf(postings.m, name, vals + [val], Views(res'))
    {
      ghost var vs := Views(res);
      var q := postings.Get(name, val);
      FreeSnoc(res, q);
      res' := res + [q];
      assert Views(res') == vs + [q.v];
    }
  }

  /** Independent iterators that nobody has read. */
  ghost predicate Batch(ps: seq<Postings>)
    reads Footprint(ps), ps
  {
    AllFree(ps) && AllUnread(ps) && AllSteady(ps)
  }

  ghost predicate ListsOf(m: Table, name: string, vals: seq<string>, vs: seq<View>) {
    |vs| == |vals| && forall i :: 0 <= i < |vals| ==> vs[i].todo == Elems(Lookup(m, Label(name, vals[i])))
  }

  lemma ListsUnion(m: Table, name: string, vals: seq<string>, vs: seq<View>)
    requires ListsOf(m, name, vals, vs)
    ensures UnionTodo(vs) == Ids(m, name, AsSet(vals))
  {
    forall id | id in UnionTodo(vs) ensures id in Ids(m, name, AsSet(vals)) {
      var i :| 0 <= i < |vs| && id in vs[i].todo;
      assert vals[i] in AsSet(vals);
    }
    forall id | id in Ids(m, name, AsSet(vals)) ensures id in UnionTodo(vs) {
      var i :| 0 <= i < |vals| && id in Lookup(m, Label(name, vals[i]));
      assert id in vs[i].todo && vs[i] in vs;
    }
  }
}
