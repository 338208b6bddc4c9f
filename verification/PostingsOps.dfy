// Merge, Intersect, Without and ExpandPostings of pkg/inverted/index/postings.go.

module PostingsOps {
  import opened IteratorViews
  import opened Iterators

  ghost predicate AllUnread(s: seq<Postings>)
    reads s
  {
    forall i :: 0 <= i < |s| ==> s[i].v.Unread()
  }

  method Intersect(its: seq<Postings>) returns (p: Postings)
    requires AllFree(its) && AllUnread(its)
    ensures Free(p) && p.v.Unread() && fresh(p.Repr - Footprint(its)) && (AllSteady(its) ==> p.steady)
    ensures p.v.todo == if its == [] then {} else MeetTodo(Views(its))
  {
    if |its| == 0 {
      p := new Postings.NewEmpty();
      return;
    }
    if |its| == 1 {
      assert MeetTodo(Views(its)) == its[0].v.todo;
      return its[0];
    }
    for i := 0 to |its| {
      if its[i].kind == Empty {
        assert MeetTodo(Views(its)) == {} by {
          assert its[i].Valid() && its[i].v.todo == {};
        }
        p := new Postings.NewEmpty();
        return;
      }
    }
    p := new Postings.NewIntersect(its);
    assert MeetReach(Views(its)) == MeetTodo(Views(its));
  }

  method Without(full: Postings, drop: Postings) returns (p: Postings)
    requires AllFree([full, drop]) && full.v.Unread() && drop.v.Unread() && full.tame && drop.tame
    ensures Free(p) && p.v.Unread() && p.tame && fresh(p.Repr - full.Repr - drop.Repr)
    ensures p.v.todo == full.v.todo - drop.v.todo
  {
    ghost var both := [full, drop];
    assert both[0] == full && both[1] == drop;
    if full.kind == Empty {
      p := new Postings.NewEmpty();
      return;
    }
    if drop.kind == Empty {
      return full;
    }
    p := new Postings.NewRemoved(full, drop);
  }

  /** One call of Next on an iterator of a list of independent ones. */
  method NextOf(ghost its: seq<Postings>, ghost i: nat, p: Postings, ghost before: seq<Postings>) returns (ok: bool)
    requires AllFree(its) && i < |its| && p == its[i]
    requires Kept(its, i, before)
    modifies p.Repr
    ensures AllFree(its) && p.v.Ok() && NextStep(old(p.v), ok, p.v)
    ensures Views(its) == old(Views(its))[i := p.v] && Views(before) == old(Views(before))
  {
    ok := p.Next();
    forall k | 0 <= k < |before| ensures before[k].v == old(before[k].v) {
      var m :| 0 <= m < i && its[m] == before[k];
      assert before[k] in its[m].Repr;
    }
  }

  /** vs are the views of the iterators kept among the first i, us the views all had before. */
  ghost predicate KeptViews(us: seq<View>, i: nat, vs: seq<View>, ws: seq<View>) {
    && i <= |us| == |ws|
    && AllPosd(vs) && UnionReach(vs) == UnionTodo(us[..i])
    && forall k :: i <= k < |us| ==> ws[k] == us[k]
  }

  lemma KeptViewsGrow(us: seq<View>, i: nat, vs: seq<View>, ws: seq<View>, v: View, ok: bool)
    requires KeptViews(us, i, vs, ws) && i < |us| && NextStep(us[i], ok, v) && v.Ok()
    ensures KeptViews(us, i + 1, if ok then vs + [v] else vs, ws[i := v])
  {
    assert us[..i + 1] == us[..i] + [us[i]];
    assert us[i] in us[..i + 1];
    var ws := if ok then vs + [v] else vs;
    forall y | y in UnionReach(ws) ensures y in UnionTodo(us[..i + 1]) {
      var x :| x in ws && y in x.reach;
      if x in vs {
        assert y in UnionReach(vs);
        var u :| u in us[..i] && y in u.todo;
        assert u in us[..i + 1];
      }
    }
    forall y | y in UnionTodo(us[..i + 1]) ensures y in UnionReach(ws) {
      var u :| u in us[..i + 1] && y in u.todo;
      if u in us[..i] {
        assert y in UnionTodo(us[..i]);
        var x :| x in vs && y in x.reach;
        assert x in ws;
      } else {
        assert v in ws;
      }
    }
  }

  ghost predicate Kept(its: seq<Postings>, i: nat, ph: seq<Postings>) {
    && i <= |its|
    && multiset(ph) <= multiset(its[..i]) && forall k :: 0 <= k < |ph| ==> ph[k] in its[..i]
  }

  lemma KeptGrows(its: seq<Postings>, i: nat, ph: seq<Postings>, ok: bool)
    requires i < |its| && Kept(its, i, ph)
    ensures Kept(its, i + 1, if ok then ph + [its[i]] else ph)
  {
    assert its[..i + 1] == its[..i] + [its[i]];
  }

  /** One turn of the loop of newMergedPostings. */
  method KeepOrDrop(its: seq<Postings>, i: nat, ph: seq<Postings>, ghost us: seq<View>)
    returns (ph': seq<Postings>)
    requires AllFree(its) && i < |its| && Kept(its, i, ph)
    requires KeptViews(us, i, Views(ph), Views(its))
    modifies its[i].Repr
    ensures AllFree(its) && Kept(its, i + 1, ph')
    ensures KeptViews(us, i + 1, Views(ph'), Views(its))
  {
    ghost var vs, ws := Views(ph), Views(its);
    var ok := NextOf(its, i, its[i], ph);
    KeptViewsGrow(us, i, vs, ws, its[i].v, ok);
    KeptGrows(its, i, ph, ok);
    ph' := if ok then ph + [its[i]] else ph;
    assert Views(ph') == if ok then vs + [its[i].v] else vs;
  }

  /** The loop of newMergedPostings keeps the iterators whose first Next answers true. */
  method KeepLoop(its: seq<Postings>, ghost us: seq<View>, ghost all: set<Postings>) returns (ph: seq<Postings>)
    requires AllFree(its) && Views(its) == us && forall i :: 0 <= i < |its| ==> its[i].Repr <= all
    modifies all
    ensures AllFree(its) && Kept(its, |its|, ph) && KeptViews(us, |its|, Views(ph), Views(its))
  {
    ph := [];
    KeptNone(its, us);
    for i := 0 to |its|
      invariant AllFree(its) && Kept(its, i, ph) && KeptViews(us, i, Views(ph), Views(its))
    {
      ph := KeepOrDrop(its, i, ph, us);
    }
  }

  lemma KeptNone(its: seq<Postings>, us: seq<View>)
    ensures Kept(its, 0, []) && KeptViews(us, 0, Views([]), us)
  {
    assert us[..0] == [] && its[..0] == [];
  }

  method FirstNexts(its: seq<Postings>) returns (ph: seq<Postings>)
    requires AllFree(its)
    modifies Footprint(its)
    ensures AllFree(its) && Entries(ph, its) && AllPosd(Views(ph))
    ensures UnionReach(Views(ph)) == old(UnionTodo(Views(its)))
  {
    ghost var us := Views(its);
    InFootprint(its);
    ph := KeepLoop(its, us, Footprint(its));
    KeptAll(its, ph, us, Views(ph), Views(its));
  }

  lemma InFootprint(its: seq<Postings>)
    ensures forall i :: 0 <= i < |its| ==> its[i].Repr <= Footprint(its)
  {
  }

  lemma KeptAll(its: seq<Postings>, ph: seq<Postings>, us: seq<View>, vs: seq<View>, ws: seq<View>)
    requires Kept(its, |its|, ph) && KeptViews(us, |us|, vs, ws)
    ensures Entries(ph, its) && AllPosd(vs) && UnionReach(vs) == UnionTodo(us)
  {
    assert its[..|its|] == its && us[..|us|] == us;
  }

  method Merge(its: seq<Postings>) returns (p: Postings)
    requires AllFree(its) && AllUnread(its)
    modifies Footprint(its)
    ensures Free(p) && p.v.Unread() && fresh(p.Repr - Footprint(its)) && (|its| != 1 || its[0].steady ==> p.steady)
    ensures p.v.todo == old(UnionTodo(Views(its)))
  {
    if |its| == 0 {
      p := new Postings.NewEmpty();
      return;
    }
    if |its| == 1 {
      assert UnionTodo(Views(its)) == its[0].v.todo by {
        assert Views(its)[0] == its[0].v;
      }
      return its[0];
    }
    p := MergeMany(its);
  }

  /** newMergedPostings. */
  method MergeMany(its: seq<Postings>) returns (p: Postings)
    requires AllFree(its)
    modifies Footprint(its)
    ensures Free(p) && p.v.Unread() && p.steady && fresh(p.Repr - Footprint(its))
    ensures p.v.todo == old(UnionTodo(Views(its)))
  {
    var ph := FirstNexts(its);
    if |ph| == 0 {
      p := new Postings.NewEmpty();
    } else {
      p := new Postings.NewMerged(its, ph);
    }
  }

  ghost predicate Increasing(s: seq<nat>) {
    forall i, j :: 0 <= i < j < |s| ==> s[i] < s[j]
  }

  lemma AppendGreater(res: seq<nat>, c: nat)
    requires Increasing(res) && c !in Elems(res) && forall y :: y in Elems(res) ==> y <= c
    ensures Increasing(res + [c]) && Elems(res + [c]) == Elems(res) + {c}
  {
    assert forall i :: 0 <= i < |res| ==> res[i] in Elems(res);
  }

  /** Drains an iterator: its ids in strictly increasing order, whatever repeats it yields. */
  method ExpandPostings(p: Postings) returns (res: seq<nat>)
    requires Free(p)
    modifies p.Repr
    ensures Increasing(res) && Elems(res) == old(p.v.todo)
  {
    ghost var all := p.v.todo;
    res := [];
    var m: set<nat> := {};
    var more := p.Next();
    while more
      invariant Free(p) && Increasing(res) && m == Elems(res)
      invariant more ==> p.v.posd && p.v.cur == p.cur && all == m + p.v.reach && forall y :: y in m ==> y <= p.v.cur
      invariant !more ==> all == m
      decreases if more then p.v.fuel + 1 else 0
    {
      if p.cur !in m {
        AppendGreater(res, p.cur);
        res := res + [p.cur];
        m := m + {p.cur};
      }
      more := p.Next();
    }
  }
}
