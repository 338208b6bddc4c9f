// Runs of Next and forward Seek: what two iterators over the same ids have in common.

module IteratorRuns {
  import opened IteratorViews
  import opened Iterators
  import opened PostingsOps

  ghost predicate Step(v: View, call: Call, ok: bool, w: View) {
    && v.Ok() && w.Ok()
    && match call
       case CallNext => NextStep(v, ok, w)
       case CallSeek(x) => v.MaySeek(x) && SeekStep(v, x, ok, w)
  }

  /** The views before, between and after the calls of a run, and the answers. */
  ghost predicate Run(vs: seq<View>, calls: seq<Call>, answers: seq<Answer>) {
    && |vs| == |calls| + 1 == |answers| + 1
    && forall i :: 0 <= i < |calls| ==>
         Step(vs[i], calls[i], answers[i].At?, vs[i + 1]) && (answers[i].At? ==> answers[i].id == vs[i + 1].cur)
  }

  /** An id is not repeated once the iterator has stood on it. */
  ghost predicate Strict(v: View) {
    v.posd ==> v.cur !in v.todo
  }

  /** The iterators of a merge are strict. */
  lemma MergedStrict(vs: seq<View>, initialized: bool, v: View)
    requires MergedOK(vs, initialized, v)
    ensures Strict(v)
  {
  }

  /** Nothing read yet, or standing on the same id with the same ids left. */
  ghost predicate Alike(v: View, w: View) {
    && v.posd == w.posd && v.todo == w.todo && v.reach == w.reach
    && (v.posd ==> v.cur == w.cur)
  }

  /** A position is the least id in reach. */
  lemma PositionLeast(v: View, w: View)
    requires v.Ok() && w.Ok() && v.posd && w.posd && v.reach == w.reach && Strict(v) && Strict(w)
    ensures Alike(v, w)
  {
    assert v.cur in v.reach && w.cur in w.reach;
    assert v.todo == v.reach - {v.cur} && w.todo == w.reach - {w.cur};
  }

  lemma StepAlike(v: View, w: View, call: Call, ok: bool, okw: bool, v': View, w': View)
    requires Alike(v, w) && Step(v, call, ok, v') && Step(w, call, okw, w') && Strict(v') && Strict(w')
    ensures ok == okw && (ok ==> Alike(v', w'))
  {
    if ok {
      PositionLeast(v', w');
    }
  }

  /** Up to the first false, strict iterators over the same ids give the same answers and stand on the same
      ids, whatever the interleaving of Next and Seek. */
  lemma {:induction false} RunsAlike(vs: seq<View>, ws: seq<View>, calls: seq<Call>, xs: seq<Answer>, ys: seq<Answer>, n: nat)
    requires Run(vs, calls, xs) && Run(ws, calls, ys) && n < |calls|
    requires vs[0].Unread() && ws[0].Unread() && vs[0].todo == ws[0].todo
    requires forall i :: 0 <= i < n ==> xs[i].At?
    requires forall i :: 0 <= i <= |calls| ==> Strict(vs[i]) && Strict(ws[i])
    ensures xs[n] == ys[n] && (xs[n].At? ==> Alike(vs[n + 1], ws[n + 1]))
  {
    if n > 0 {
      RunsAlike(vs, ws, calls, xs, ys, n - 1);
    }
    StepAlike(vs[n], ws[n], calls[n], xs[n].At?, ys[n].At?, vs[n + 1], ws[n + 1]);
  }

  /** The answers are those of the plain list of the ids: Next stands on the least id left, Seek(x) on the
      least id from x on; the ids stood on never fall, and rise with every Next. */
  lemma StepLeast(v: View, call: Call, w: View)
    requires (v.Unread() || v.posd) && Step(v, call, true, w) && Strict(w)
    ensures w.cur in v.reach && w.todo == Above(v.reach, w.cur)
    ensures call.CallNext? ==> w.cur in v.todo && forall y :: y in v.todo ==> w.cur <= y
    ensures call.CallSeek? ==> call.x <= w.cur && forall y :: y in v.reach && call.x <= y ==> w.cur <= y
    ensures v.posd ==> v.cur <= w.cur && (call.CallNext? && Strict(v) ==> v.cur < w.cur)
  {
    assert w.cur in w.reach;
    assert call.CallNext? ==> w.cur in v.todo;
    assert w.todo == w.reach - {w.cur};
    assert call.CallSeek? ==> forall y :: y in v.reach && call.x <= y ==> y in w.reach;
  }

  // ---- strict iterators run as a plain list of their ids

  /** The list cursor stands where the iterator stands and has the same ids left. */
  ghost predicate Follows(v: View, c: Cursor) {
    && v.Ok() && Strict(v) && (v.posd || v.Unread())
    && c.cur == v.cur && Increasing(c.list) && Elems(c.list) == v.todo
  }

  lemma NextFollows(v: View, ok: bool, w: View, c: Cursor)
    requires Follows(v, c) && Step(v, CallNext, ok, w) && Strict(w)
    ensures ListStep(c, CallNext).0 == ok && (ok ==> Follows(w, ListStep(c, CallNext).1))
  {
    if c.list == [] {
      assert v.todo == {};
    } else {
      assert c.list[0] in v.todo;
      StepLeast(v, CallNext, w);
      assert w.cur in Elems(c.list);
      assert w.todo == Elems(c.list) - {w.cur};
      TailElems(c.list, 0);
    }
  }

  /** In an increasing list the ids behind a place are those above it. */
  lemma TailElems(list: seq<nat>, i: nat)
    requires Increasing(list) && i < |list|
    ensures Increasing(list[i + 1..]) && Elems(list[i + 1..]) == Above(Elems(list), list[i])
    ensures forall y :: y in list ==> y < list[i] || list[i] <= y
  {
    forall y | y in Above(Elems(list), list[i]) ensures y in list[i + 1..] {
      var k :| 0 <= k < |list| && list[k] == y;
      assert list[i + 1..][k - i - 1] == y;
    }
  }

  lemma SeekFollows(v: View, x: nat, ok: bool, w: View, c: Cursor)
    requires Follows(v, c) && Step(v, CallSeek(x), ok, w) && Strict(w)
    ensures ListStep(c, CallSeek(x)).0 == ok && (ok ==> Follows(w, ListStep(c, CallSeek(x)).1))
  {
    if x <= c.cur {
      assert v.posd && v.cur in v.reach;
      StepLeast(v, CallSeek(x), w);
      assert From(v.reach, x) == v.reach;
      PositionLeast(v, w);
    } else {
      var i := Skipped(c.list, x);
      if i < |c.list| {
        assert c.list[i] in v.todo;
        StepLeast(v, CallSeek(x), w);
        assert w.cur in Elems(c.list);
        var k :| 0 <= k < |c.list| && c.list[k] == w.cur;
        assert k == i;
        TailElems(c.list, i);
        assert w.todo == Above(Elems(c.list), w.cur);
      } else {
        assert forall y :: y in v.todo ==> y < x;
      }
    }
  }

  /** From the second call on any target may be sought; the first may not be 0. */
  predicate Legal(calls: seq<Call>) {
    calls != [] && calls[0].CallSeek? ==> calls[0].x > 0
  }

  method Make(p: Postings, call: Call) returns (ok: bool)
    requires Free(p) && p.v.Alert() && (call.CallSeek? ==> call.x > 0 || p.v.posd)
    modifies p.Repr
    ensures Free(p) && Step(old(p.v), call, ok, p.v) && (ok ==> p.v.posd && p.v.cur == p.cur)
    ensures ok && p.kind.Merged? ==> Strict(p.v)
  {
    match call {
      case CallNext => ok := p.Next();
      case CallSeek(x) => ok := p.Seek(x);
    }
  }

  lemma RunMore(vs: seq<View>, calls: seq<Call>, answers: seq<Answer>, call: Call, a: Answer, w: View)
    requires Run(vs, calls, answers) && Step(vs[|calls|], call, a.At?, w) && (a.At? ==> a.id == w.cur)
    ensures Run(vs + [w], calls + [call], answers + [a])
  {
  }

  /** One call of a strict iterator and of the list that it follows. */
  lemma AnswerFollows(v: View, call: Call, a: Answer, w: View, c: Cursor, calls: seq<Call>, before: seq<Answer>)
    requires Follows(v, c) && Step(v, call, a.At?, w) && (a.At? ==> a.id == w.cur) && Strict(w)
    requires calls != [] && calls[0] == call
    ensures a.At? ==> Follows(w, ListStep(c, call).1)
    ensures before + AnswersList(c, calls) ==
              if a.At? then (before + [a]) + AnswersList(ListStep(c, call).1, calls[1..]) else before + [a]
  {
    match call {
      case CallNext => NextFollows(v, a.At?, w, c);
      case CallSeek(x) => SeekFollows(v, x, a.At?, w, c);
    }
    if a.At? {
      assert before + ([a] + AnswersList(ListStep(c, call).1, calls[1..])) == (before + [a]) + AnswersList(ListStep(c, call).1, calls[1..]);
    }
  }

  /** Drives an unread iterator through the calls until one answers no. Whatever its kind, the run takes the
      steps of the contract; a merge answers as the increasing list of its ids does. */
  method Drive(p: Postings, calls: seq<Call>, ghost ids: seq<nat>) returns (answers: seq<Answer>, ghost vs: seq<View>)
    requires Free(p) && p.v.Unread() && Legal(calls)
    requires Increasing(ids) && Elems(ids) == p.v.todo
    modifies p.Repr
    ensures |answers| <= |calls| && (|answers| < |calls| ==> answers != [] && answers[|answers| - 1].No?)
    ensures Run(vs, calls[..|answers|], answers) && vs[0] == old(p.v)
    ensures p.kind.Merged? ==> answers == AnswersList(Cursor(0, ids), calls)
  {
    answers, vs := [], [p.v];
    ghost var c := Cursor(0, ids);
    for i := 0 to |calls|
      invariant Free(p) && p.v.Alert() && (i > 0 ==> p.v.posd)
      invariant |answers| == i && Run(vs, calls[..i], answers) && vs[0] == old(p.v) && vs[i] == p.v
      invariant p.kind.Merged? ==> Follows(p.v, c) && answers + AnswersList(c, calls[i..]) == AnswersList(Cursor(0, ids), calls)
    {
      ghost var v := p.v;
      var ok := Make(p, calls[i]);
      var a := if ok then At(p.cur) else No;
      RunMore(vs, calls[..i], answers, calls[i], a, p.v);
      assert calls[..i + 1] == calls[..i] + [calls[i]];
      if p.kind.Merged? {
        AnswerFollows(v, calls[i], a, p.v, c, calls[i..], answers);
        assert calls[i..][1..] == calls[i + 1..];
      }
      answers, vs := answers + [a], vs + [p.v];
      c := ListStep(c, calls[i]).1;
      if !ok {
        return;
      }
    }
  }
}
