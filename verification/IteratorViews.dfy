// What a caller may know of a postings iterator, and the set arithmetic behind the four iterators
// of pkg/inverted/index/postings.go. Nothing here reads the heap.

module IteratorViews {

  /** The visible state of an iterator over 64-bit ids, which the code only compares.
      `todo`  : the ids that Next can still produce;
      `reach` : the ids that Seek can still stop at, that is `todo` and the position;
      `posd`  : the last call answered true, so `cur` is an id of the list;
      `floor` : after a Seek that failed, only targets from here on may be sought;
      `spent` : after a call that failed, only Next may follow;
      `fuel`  : bounds the calls of Next that can still answer true, repeated ids counted. */
  datatype View = View(cur: nat, todo: set<nat>, reach: set<nat>, posd: bool, spent: bool, floor: nat, fuel: nat)
  {
    ghost predicate Ok() {
      && todo <= reach
      && (forall y :: y in todo ==> cur <= y)
      && (posd ==> Alert() && reach == todo + {cur})
      && (spent ==> todo == {})
      && (floor > 0 ==> todo == {} && cur < floor && forall y :: y in reach ==> y < floor)
    }

    /** Any target may be sought. */
    predicate Alert() {
      !spent && floor == 0
    }

    /** The target may be sought: it is no step back behind a Seek that failed, and 0 only from a position. */
    predicate MaySeek(x: nat) {
      !spent && floor <= x && (x > 0 || posd)
    }

    /** Nothing has been read yet. */
    ghost predicate Unread() {
      cur == 0 && reach == todo && !posd && Alert()
    }
  }

  function From(s: set<nat>, x: nat): set<nat> {
    set y | y in s && x <= y
  }

  function Above(s: set<nat>, x: nat): set<nat> {
    set y | y in s && x < y
  }

  function Elems(s: seq<nat>): set<nat> {
    set y | y in s
  }

  ghost predicate Sorted(s: seq<nat>) {
    forall i, j :: 0 <= i < j < |s| ==> s[i] <= s[j]
  }

  ghost predicate Reaches(s: set<nat>, x: nat) {
    exists y :: y in s && x <= y
  }

  /** Next answers true iff an id is left, and then stands on the least one. */
  ghost predicate NextStep(v: View, ok: bool, w: View) {
    && ok == (v.todo != {})
    && (ok ==> w.posd && w.reach == v.todo && w.fuel < v.fuel)
    && (!ok ==> !w.posd && w.todo == {} && w.reach <= v.reach && w.fuel <= v.fuel && w.floor == v.floor)
  }

  /** Seek(x) answers true iff an id at or above x can be reached, and then stands on the least one. */
  ghost predicate SeekStep(v: View, x: nat, ok: bool, w: View) {
    && ok == Reaches(v.reach, x)
    && w.fuel <= v.fuel
    && w.todo <= v.todo
    && (ok ==> w.posd && w.reach == From(v.reach, x))
    && (ok && v.posd && w.cur != v.cur ==> w.fuel < v.fuel)
    && (!ok ==> !w.posd && w.todo == {} && w.reach <= v.reach && w.floor <= x)
  }

  // ---- ListPostings

  datatype Call = CallNext | CallSeek(x: nat)

  /** The two fields of a ListPostings. */
  datatype Cursor = Cursor(cur: nat, list: seq<nat>)

  /** How many ids at the front are below x. */
  function Skipped(list: seq<nat>, x: nat): (n: nat)
    ensures n <= |list| && (forall k :: 0 <= k < n ==> list[k] < x) && (n < |list| ==> x <= list[n])
  {
    if list == [] || x <= list[0] then 0 else Skipped(list[1..], x) + 1
  }

  lemma {:induction false} SkippedIs(list: seq<nat>, x: nat, i: nat)
    requires i <= |list| && (forall k :: 0 <= k < i ==> list[k] < x) && (i < |list| ==> x <= list[i])
    ensures Skipped(list, x) == i
  {
    if i > 0 {
      SkippedIs(list[1..], x, i - 1);
    }
  }

  /** Where a Seek lands that skips n ids. */
  function Landing(c: Cursor, n: nat): (bool, Cursor)
    requires n <= |c.list|
  {
    if n < |c.list| then (true, Cursor(c.list[n], c.list[n + 1..])) else (false, Cursor(c.cur, []))
  }

  /** One call: the answer, and the fields after it. */
  function ListStep(c: Cursor, call: Call): (bool, Cursor) {
    match call
    case CallNext => if c.list == [] then (false, Cursor(0, [])) else (true, Cursor(c.list[0], c.list[1..]))
    case CallSeek(x) =>
      if x <= c.cur then (true, c) else Landing(c, Skipped(c.list, x))
  }

  /** The answer of a call: the id stood on, or no. */
  datatype Answer = At(id: nat) | No

  /** The answers of a list to a run of calls, up to the first no. */
  function AnswersList(c: Cursor, calls: seq<Call>): seq<Answer>
    decreases |calls|
  {
    if calls == [] then [] else
      var (ok, d) := ListStep(c, calls[0]);
      if ok then [At(d.cur)] + AnswersList(d, calls[1..]) else [No]
  }

  ghost predicate ListOK(list: seq<nat>, v: View) {
    && Sorted(list)
    && v.todo == Elems(list)
    && v.reach <= v.todo + {v.cur}
    && (v.cur in v.reach || v.cur == 0)
    && v.fuel == |list|
    && v.Alert()
  }

  lemma ListNextHit(list: seq<nat>, v: View, w: View)
    requires ListOK(list, v) && v.Ok() && list != []
    requires w == View(list[0], Elems(list[1..]), v.todo, true, false, 0, |list| - 1)
    ensures ListOK(list[1..], w) && w.Ok() && NextStep(v, true, w)
  {
    assert list == [list[0]] + list[1..];
    assert list[0] in v.todo;
    assert forall y {:trigger y in list[1..]} :: y in list[1..] ==> list[0] <= y;
    assert w.reach == w.todo + {w.cur};
  }

  lemma ListSeekStay(list: seq<nat>, v: View, x: nat)
    requires ListOK(list, v) && v.Ok() && x <= v.cur && (x > 0 || v.posd)
    ensures ListOK(list, v.(posd := true)) && v.(posd := true).Ok() && SeekStep(v, x, true, v.(posd := true))
  {
    assert v.cur in v.reach;
    assert v.reach == v.todo + {v.cur};
    assert From(v.reach, x) == v.reach;
  }

  lemma ListSeekHit(list: seq<nat>, v: View, x: nat, i: nat, w: View)
    requires ListOK(list, v) && v.Ok() && v.cur < x && i < |list| && x <= list[i]
    requires forall k :: 0 <= k < i ==> list[k] < x
    requires w == View(list[i], Elems(list[i + 1..]), From(v.reach, x), true, false, 0, |list| - i - 1)
    ensures ListOK(list[i + 1..], w) && w.Ok() && SeekStep(v, x, true, w)
  {
    assert list == list[..i] + [list[i]] + list[i + 1..];
    assert list[i] in v.todo;
    assert forall y {:trigger y in list[i + 1..]} :: y in list[i + 1..] ==> list[i] <= y;
    assert w.reach == w.todo + {w.cur};
  }

  lemma ListSeekMiss(list: seq<nat>, v: View, x: nat, w: View)
    requires ListOK(list, v) && v.Ok() && v.cur < x
    requires forall k :: 0 <= k < |list| ==> list[k] < x
    requires w == View(v.cur, {}, v.reach * {v.cur}, false, false, 0, 0)
    ensures ListOK([], w) && w.Ok() && SeekStep(v, x, false, w)
  {
    assert Elems([]) == {};
  }

  // ---- intersectPostings

  function MeetTodo(vs: seq<View>): set<nat>
    requires |vs| > 0
  {
    set y | y in vs[0].todo && forall i :: 0 <= i < |vs| ==> y in vs[i].todo
  }

  function MeetReach(vs: seq<View>): set<nat>
    requires |vs| > 0
  {
    set y | y in vs[0].reach && forall i :: 0 <= i < |vs| ==> y in vs[i].reach
  }

  /** Every iterator stands on d. */
  ghost predicate AllAt(vs: seq<View>, d: nat) {
    forall i :: 0 <= i < |vs| ==> vs[i].posd && vs[i].cur == d
  }

  ghost predicate AllOk(vs: seq<View>) {
    forall i :: 0 <= i < |vs| ==> vs[i].Ok()
  }

  predicate AllAlert(vs: seq<View>) {
    forall i :: 0 <= i < |vs| ==> vs[i].Alert()
  }

  function MeetView(vs: seq<View>, cur: nat, posd: bool): View
    requires |vs| > 0
  {
    View(cur, MeetTodo(vs), MeetReach(vs), posd, !AllAlert(vs), 0, vs[0].fuel)
  }

  ghost predicate MeetOK(vs: seq<View>, v: View) {
    && |vs| > 0
    && v == MeetView(vs, v.cur, v.posd)
    && (v.posd ==> AllAt(vs, v.cur))
  }

  /** The leapfrog has moved us to ws, losing no id at or above cur. */
  ghost predicate Narrowed(us: seq<View>, ws: seq<View>, cur: nat) {
    && |us| == |ws|
    && forall i :: 0 <= i < |us| ==> Narrower(us[i], ws[i], cur)
  }

  ghost predicate Narrower(u: View, w: View, cur: nat) {
    && w.reach <= u.reach && w.todo <= u.todo && From(u.reach, cur) <= w.reach
    && w.fuel <= u.fuel
    && (u.posd ==> w.posd && (w.cur == u.cur || w.fuel < u.fuel))
  }

  /** doNext answers true iff an id at or above c is reachable in every list. */
  ghost predicate LeapStep(us: seq<View>, c: nat, ok: bool, ws: seq<View>, d: nat) {
    && |us| == |ws| > 0
    && ok == Reaches(MeetReach(us), c)
    && ws[0].fuel <= us[0].fuel
    && MeetTodo(ws) <= MeetTodo(us)
    && (ok ==> AllAt(ws, d) && MeetReach(ws) == From(MeetReach(us), c))
    && (ok && us[0].posd && d != us[0].cur ==> ws[0].fuel < us[0].fuel)
    && (!ok ==> MeetTodo(ws) == {} && MeetReach(ws) <= MeetReach(us))
  }

  /** Nothing reachable in every list lies between c and d. */
  ghost predicate NoneBetween(us: seq<View>, c: nat, d: nat)
    requires |us| > 0
  {
    forall y :: y in MeetReach(us) && c <= y ==> d <= y
  }

  ghost predicate EachPosd(vs: seq<View>) {
    forall i :: 0 <= i < |vs| ==> vs[i].posd
  }

  /** What the leapfrog from us and c keeps while the first k iterators stand on d. */
  ghost predicate LeapInv(us: seq<View>, c: nat, ws: seq<View>, d: nat, k: nat) {
    && |us| > 0 && c <= d && AllAlert(ws)
    && Narrowed(us, ws, d) && NoneBetween(us, c, d)
    && (d > 0 || EachPosd(ws))
    && forall i :: 0 <= i < k && i < |ws| ==> ws[i].posd && ws[i].cur == d
  }

  /** The first k iterators have answered Next with true, the others are as before; d is the highest
      position met, or still the old one. */
  ghost predicate NextRound(us: seq<View>, cur: nat, ws: seq<View>, d: nat, k: nat) {
    && |us| == |ws|
    && (forall i :: 0 <= i < k && i < |us| ==> NextStep(us[i], true, ws[i]))
    && (forall i :: k <= i < |us| ==> us[i] == ws[i])
    && (d == cur || exists i :: 0 <= i < k && i < |us| && d == ws[i].cur)
  }

  lemma NextRoundGrows(us: seq<View>, cur: nat, ws: seq<View>, d: nat, k: nat, w: View)
    requires NextRound(us, cur, ws, d, k) && k < |us| && NextStep(ws[k], true, w)
    ensures NextRound(us, cur, ws[k := w], if w.cur > d then w.cur else d, k + 1)
  {
    var xs := ws[k := w];
    assert xs[k].cur == w.cur;
    if d != cur {
      var i :| 0 <= i < k && i < |us| && d == ws[i].cur;
      assert xs[i].cur == d;
    }
  }

  /** The iterator at k was the first whose Next answered false. */
  ghost predicate RoundFailed(us: seq<View>, ws: seq<View>, k: nat) {
    && k < |us| == |ws|
    && (forall i :: 0 <= i < k ==> NextStep(us[i], true, ws[i]))
    && NextStep(us[k], false, ws[k])
    && (forall i :: k < i < |us| ==> us[i] == ws[i])
  }

  lemma LeapSeekHit(us: seq<View>, ws: seq<View>, c: nat, d: nat, i: nat, w: View)
    requires LeapInv(us, c, ws, d, i) && i < |us|
    requires SeekStep(ws[i], d, true, w) && w.Ok()
    ensures d <= w.cur
    ensures d < w.cur ==> LeapInv(us, c, ws[i := w], w.cur, 0) && Above(UnionReach(us), w.cur) < Above(UnionReach(us), d)
    ensures d == w.cur ==> LeapInv(us, c, ws[i := w], d, i + 1)
  {
    assert w.cur in us[i].reach && us[i] in us;
    if d < w.cur {
      assert w.cur in Above(UnionReach(us), d) && w.cur !in Above(UnionReach(us), w.cur);
      assert Above(UnionReach(us), w.cur) <= Above(UnionReach(us), d);
    }
    assert w.cur in w.reach;
    assert Narrower(us[i], ws[i], d);
    assert Narrower(us[i], w, d);
    forall k | 0 <= k < |us|
      ensures Narrower(us[k], ws[i := w][k], d) && Narrower(us[k], ws[i := w][k], w.cur)
    {
      assert Narrower(us[k], ws[k], d);
    }
    forall y | y in MeetReach(us) && c <= y
      ensures w.cur <= y
    {
      assert y in us[i].reach && y in From(us[i].reach, d);
      assert y in w.reach;
    }
  }

  lemma LeapFound(us: seq<View>, ws: seq<View>, c: nat, d: nat)
    requires LeapInv(us, c, ws, d, |ws|) && AllOk(ws)
    ensures LeapStep(us, c, true, ws, d)
  {
    assert Narrower(us[0], ws[0], d);
    forall i | 0 <= i < |us|
      ensures Narrower(us[i], ws[i], d) && d in us[i].reach
    {
      assert Narrower(us[i], ws[i], d);
      assert d in ws[i].reach;
    }
    assert d in MeetReach(us);
    forall y | y in MeetReach(us) && c <= y
      ensures y in MeetReach(ws)
    {
      forall i | 0 <= i < |ws| ensures y in ws[i].reach {
        assert y in From(us[i].reach, d);
      }
    }
    forall y | y in MeetReach(ws)
      ensures y in From(MeetReach(us), c)
    {
      assert y in ws[0].reach && ws[0].Ok();
    }
    assert MeetReach(ws) == From(MeetReach(us), c);
  }

  lemma LeapFailed(us: seq<View>, ws: seq<View>, c: nat, d: nat, i: nat, w: View)
    requires LeapInv(us, c, ws, d, i) && i < |us|
    requires SeekStep(ws[i], d, false, w)
    ensures LeapStep(us, c, false, ws[i := w], d)
  {
    var xs := ws[i := w];
    forall k | 0 <= k < |us|
      ensures xs[k].todo <= us[k].todo && xs[k].reach <= us[k].reach && xs[k].fuel <= us[k].fuel
    {
      assert Narrower(us[k], ws[k], d);
    }
    assert MeetTodo(xs) == {} by {
      assert xs[i].todo == {};
    }
    assert !Reaches(us[i].reach, d) by {
      assert Narrower(us[i], ws[i], d);
      assert From(us[i].reach, d) <= ws[i].reach;
      assert forall y :: y in us[i].reach && d <= y ==> y in From(us[i].reach, d);
    }
  }

  /** After a round of Next that all answered true, the leapfrog completes intersectPostings.Next. */
  lemma MeetNextHit(us: seq<View>, v: View, ms: seq<View>, c: nat, ok: bool, ws: seq<View>, d: nat)
    requires MeetOK(us, v) && v.Ok() && NextRound(us, v.cur, ms, c, |us|) && AllOk(ms) && AllOk(ws)
    requires LeapStep(ms, c, ok, ws, d)
    ensures MeetOK(ws, MeetView(ws, d, ok)) && MeetView(ws, d, ok).Ok()
    ensures NextStep(v, ok, MeetView(ws, d, ok))
  {
    assert MeetReach(ms) == v.todo;
    assert forall y :: y in v.todo ==> c <= y;
    assert From(v.todo, c) == v.todo;
    MeetViewOk(ws, d, ok);
  }

  lemma MeetViewOk(ws: seq<View>, d: nat, ok: bool)
    requires |ws| > 0 && AllOk(ws)
    requires ok ==> AllAt(ws, d)
    requires !ok ==> forall y :: y in MeetTodo(ws) ==> d <= y
    ensures MeetOK(ws, MeetView(ws, d, ok)) && MeetView(ws, d, ok).Ok()
  {
    if ok {
      assert forall i :: 0 <= i < |ws| ==> ws[i].reach == ws[i].todo + {d};
      assert MeetReach(ws) == MeetTodo(ws) + {d};
    }
  }

  lemma MeetSeek(us: seq<View>, v: View, x: nat, ok: bool, ws: seq<View>, d: nat)
    requires MeetOK(us, v) && v.Ok() && AllOk(ws)
    requires LeapStep(us, x, ok, ws, d)
    ensures MeetOK(ws, MeetView(ws, d, ok)) && MeetView(ws, d, ok).Ok()
    ensures SeekStep(v, x, ok, MeetView(ws, d, ok))
  {
    MeetViewOk(ws, d, ok);
  }

  /** A Next that fails leaves an intersection with nothing to do. */
  lemma MeetNextMiss(us: seq<View>, v: View, ws: seq<View>, k: nat, d: nat)
    requires MeetOK(us, v) && v.Ok() && AllOk(us) && AllOk(ws) && RoundFailed(us, ws, k)
    ensures MeetOK(ws, MeetView(ws, d, false)) && MeetView(ws, d, false).Ok()
    ensures NextStep(v, false, MeetView(ws, d, false))
  {
    assert us[k].todo == {} && ws[k].todo == {};
    assert MeetTodo(us) == {} && MeetTodo(ws) == {};
    assert forall i :: 0 <= i < |us| ==> ws[i].reach <= us[i].reach && ws[i].fuel <= us[i].fuel;
    assert MeetReach(ws) <= MeetReach(us);
    MeetViewOk(ws, d, false);
  }

  // ---- mergedPostings

  function UnionReach(vs: seq<View>): set<nat> {
    set x, y | x in vs && y in x.reach :: y
  }

  function UnionTodo(vs: seq<View>): set<nat> {
    set x, y | x in vs && y in x.todo :: y
  }

  function Curs(vs: seq<View>): (ks: seq<nat>)
    ensures |ks| == |vs| && forall i :: 0 <= i < |vs| ==> ks[i] == vs[i].cur
  {
    seq(|vs|, i requires 0 <= i < |vs| => vs[i].cur)
  }

  // container/heap: the entry at p lies above those at 2 * p + 1 and 2 * p + 2

  ghost predicate Child(p: nat, c: nat) {
    c == 2 * p + 1 || c == 2 * p + 2
  }

  /** The keys are in heap order below every parent from lo on. */
  ghost predicate HeapFrom(ks: seq<nat>, lo: nat) {
    forall p, c {:trigger Child(p, c)} :: lo <= p < c < |ks| && Child(p, c) ==> ks[p] <= ks[c]
  }

  lemma {:induction false} HeapMin(ks: seq<nat>, i: nat)
    requires HeapFrom(ks, 0) && i < |ks|
    ensures ks[0] <= ks[i]
  {
    if i > 0 {
      HeapMin(ks, (i - 1) / 2);
      assert Child((i - 1) / 2, i);
    }
  }

  /** Heap order holds except below i, whose parent does not exceed its children. */
  ghost predicate SiftInv(ks: seq<nat>, lo: nat, i: nat) {
    && lo <= i
    && (forall p, c {:trigger Child(p, c)} :: lo <= p < c < |ks| && p != i && Child(p, c) ==> ks[p] <= ks[c])
    && (forall p, c {:trigger Child(p, i), Child(i, c)} ::
          lo <= p < i < c < |ks| && Child(p, i) && Child(i, c) ==> ks[p] <= ks[c])
  }

  /** j is the least child of i and lies below it, or j is i and no child lies below it. */
  ghost predicate SiftsTo(ks: seq<nat>, i: nat, j: nat) {
    && (j == i || (i < j < |ks| && Child(i, j) && ks[j] < ks[i]))
    && forall c {:trigger Child(i, c)} :: i < c < |ks| && Child(i, c) ==> ks[j] <= ks[c]
  }

  lemma SiftSwap(ks: seq<nat>, lo: nat, i: nat, j: nat)
    requires SiftInv(ks, lo, i) && i < j && SiftsTo(ks, i, j)
    ensures SiftInv(ks[i := ks[j]][j := ks[i]], lo, j)
  {
  }

  lemma SiftDone(ks: seq<nat>, lo: nat, i: nat)
    requires SiftInv(ks, lo, i) && SiftsTo(ks, i, i)
    ensures HeapFrom(ks, lo)
  {
  }

  ghost predicate AllPosd(vs: seq<View>) {
    forall i :: 0 <= i < |vs| ==> vs[i].posd && vs[i].Ok()
  }

  function MergedView(vs: seq<View>, initialized: bool, cur: nat): View {
    if !initialized then
      View(0, UnionReach(vs), UnionReach(vs), false, false, 0, |UnionReach(vs)|)
    else if vs == [] then
      View(cur, {}, {}, false, false, 0, 0)
    else
      View(cur, Above(UnionReach(vs), cur), Above(UnionReach(vs), cur) + {cur}, true, false, 0, |Above(UnionReach(vs), cur)|)
  }

  ghost predicate MergedOK(vs: seq<View>, initialized: bool, v: View) {
    && AllPosd(vs)
    && v == MergedView(vs, initialized, v.cur)
    && (initialized && vs != [] ==> HeapFrom(Curs(vs), 0) && v.cur == vs[0].cur)
  }

  ghost predicate SameViews(vs: seq<View>, ws: seq<View>) {
    forall v :: v in vs <==> v in ws
  }

  /** A heap of positioned iterators. */
  ghost predicate HeapOK(vs: seq<View>) {
    AllPosd(vs) && HeapFrom(Curs(vs), 0)
  }

  /** The top of the heap is the least id that can be reached. */
  lemma TopIsLeast(vs: seq<View>)
    requires HeapOK(vs) && vs != []
    ensures Above(UnionReach(vs), vs[0].cur) + {vs[0].cur} == UnionReach(vs)
  {
    assert vs[0].cur in vs[0].reach && vs[0] in vs;
    forall v, y | v in vs && y in v.reach
      ensures vs[0].cur <= y
    {
      var i :| 0 <= i < |vs| && vs[i] == v;
      HeapMin(Curs(vs), i);
    }
  }

  /** The heap only loses ids, and none above x. */
  ghost predicate KeepsAbove(vs: seq<View>, ws: seq<View>, x: nat) {
    UnionReach(ws) <= UnionReach(vs) && Above(UnionReach(ws), x) == Above(UnionReach(vs), x)
  }

  /** Once the top has left the least id, the heap holds what was above it. */
  lemma TopPasses(us: seq<View>, ws: seq<View>, x: nat)
    requires HeapOK(us) && us != [] && us[0].cur == x
    requires HeapOK(ws) && ws != [] && ws[0].cur != x && KeepsAbove(us, ws, x)
    ensures UnionReach(ws) == Above(UnionReach(us), x)
  {
    TopIsLeast(us);
    TopIsLeast(ws);
    assert ws[0].cur in UnionReach(us);
  }

  lemma MergedViewOk(vs: seq<View>)
    requires HeapOK(vs)
    ensures vs != [] ==> MergedOK(vs, true, MergedView(vs, true, vs[0].cur))
    ensures vs != [] ==> MergedView(vs, true, vs[0].cur).Ok() && MergedView(vs, true, vs[0].cur).reach == UnionReach(vs)
  {
    if vs != [] {
      TopIsLeast(vs);
    }
  }

  /** Moving the top of the heap from v to w loses nothing above x when v and w agree there. */
  lemma MergeReplace(vs: seq<View>, w: View, x: nat)
    requires vs != [] && w.reach <= vs[0].reach && Above(vs[0].reach, x) == Above(w.reach, x)
    ensures KeepsAbove(vs, vs[0 := w], x)
  {
    var ws := vs[0 := w];
    forall y | y in Above(UnionReach(vs), x) ensures y in UnionReach(ws) {
      var i :| 0 <= i < |vs| && y in vs[i].reach;
      assert ws[i] in ws && (i == 0 ==> y in Above(w.reach, x));
    }
    forall y | y in UnionReach(ws) ensures y in UnionReach(vs) {
      var i :| 0 <= i < |ws| && y in ws[i].reach;
      assert vs[i] in vs;
    }
  }

  lemma SeekAbove(v: View, lo: nat, x: nat, ok: bool, w: View)
    requires x == lo + 1 && SeekStep(v, x, ok, w)
    ensures Above(v.reach, lo) == if ok then Above(w.reach, lo) else {}
  {
  }

  /** A list that holds nothing above x may leave the heap. */
  lemma MergeDrop(vs: seq<View>, ws: seq<View>, x: nat)
    requires vs != [] && Above(vs[0].reach, x) == {} && SameViews(ws, vs[1..])
    ensures KeepsAbove(vs, ws, x)
  {
    assert vs == [vs[0]] + vs[1..];
    forall y | y in Above(UnionReach(vs), x) ensures y in UnionReach(ws) {
      var v :| v in vs && y in v.reach;
      assert y in Above(v.reach, x);
    }
  }

  lemma UnionSame(vs: seq<View>, ws: seq<View>)
    requires SameViews(vs, ws)
    ensures UnionReach(vs) == UnionReach(ws) && (AllPosd(vs) ==> AllPosd(ws))
  {
    if AllPosd(vs) {
      forall i | 0 <= i < |ws| ensures ws[i].posd && ws[i].Ok() {
        assert ws[i] in vs;
      }
    }
  }

  function SumFuel(vs: seq<View>): nat {
    if vs == [] then 0 else vs[0].fuel + SumFuel(vs[1..])
  }

  /** The measure of the loops over the heap: entries left, then calls of Next left. */
  ghost predicate LessWork(n: nat, ws: seq<View>, m: nat, us: seq<View>) {
    n < m || (n == m && SumFuel(ws) < SumFuel(us))
  }

  lemma {:induction false} SumFuelDrops(vs: seq<View>, k: nat, w: View)
    requires k < |vs| && w.fuel < vs[k].fuel
    ensures SumFuel(vs[k := w]) < SumFuel(vs)
  {
    if k == 0 {
      assert vs[0 := w][1..] == vs[1..];
    } else {
      assert vs[k := w][1..] == vs[1..][k - 1 := w];
      SumFuelDrops(vs[1..], k - 1, w);
    }
  }

  lemma {:induction false} SubsetSize(a: set<nat>, b: set<nat>)
    requires a <= b
    ensures |a| <= |b|
    ensures a != b ==> |a| < |b|
  {
    if a != {} {
      var x :| x in a;
      SubsetSize(a - {x}, b - {x});
    } else if b != {} {
      var y :| y in b;
      assert |b - {y}| < |b|;
    }
  }

  /** mergedPostings.Next, after the top has left the old position cur (or at the first call). */
  lemma MergedNextHit(v: View, ws: seq<View>)
    requires HeapOK(ws) && ws != [] && v.Ok()
    requires UnionReach(ws) == v.todo && v.fuel == |v.todo|
    ensures MergedOK(ws, true, MergedView(ws, true, ws[0].cur)) && NextStep(v, true, MergedView(ws, true, ws[0].cur))
    ensures MergedView(ws, true, ws[0].cur).Ok()
  {
    MergedViewOk(ws);
    var c := ws[0].cur;
    assert c in v.todo && c !in Above(v.todo, c);
    SubsetSize(Above(v.todo, c), v.todo);
  }

  lemma MergedSeekHit(vs: seq<View>, v: View, x: nat, ws: seq<View>)
    requires MergedOK(vs, true, v) && vs != [] && v.Ok() && 0 < x && v.cur < x
    requires HeapOK(ws) && ws != [] && x <= ws[0].cur
    requires KeepsAbove(vs, ws, x - 1)
    ensures MergedOK(ws, true, MergedView(ws, true, ws[0].cur)) && SeekStep(v, x, true, MergedView(ws, true, ws[0].cur))
    ensures MergedView(ws, true, ws[0].cur).Ok()
  {
    MergedViewOk(vs);
    MergedViewOk(ws);
    LeastFrom(vs, ws, x);
    var w, c := MergedView(ws, true, ws[0].cur), ws[0].cur;
    assert w.todo <= v.todo && c in v.todo && c !in w.todo;
    SubsetSize(w.todo, v.todo);
  }

  /** A heap with all its entries from x on holds what another held from x on. */
  lemma LeastFrom(vs: seq<View>, ws: seq<View>, x: nat)
    requires HeapOK(ws) && ws != [] && 0 < x <= ws[0].cur && KeepsAbove(vs, ws, x - 1)
    ensures UnionReach(ws) == From(UnionReach(vs), x)
  {
    TopIsLeast(ws);
    assert Above(UnionReach(ws), x - 1) == UnionReach(ws);
    assert From(UnionReach(vs), x) == Above(UnionReach(vs), x - 1);
  }

  lemma MergedSeekStay(vs: seq<View>, v: View, x: nat)
    requires MergedOK(vs, true, v) && vs != [] && v.Ok() && x <= v.cur
    ensures SeekStep(v, x, true, v)
  {
    assert From(v.reach, x) == v.reach;
  }

  lemma MergedSeekMiss(vs: seq<View>, v: View, x: nat, cur: nat)
    requires MergedOK(vs, true, v) && vs != [] && v.Ok() && 0 < x
    requires KeepsAbove(vs, [], x - 1)
    ensures MergedOK([], true, MergedView([], true, cur)) && SeekStep(v, x, false, MergedView([], true, cur))
  {
    MergedViewOk(vs);
    assert forall y :: y in v.reach && x <= y ==> y in Above(UnionReach(vs), x - 1);
  }

  // ---- removedPostings

  /** The ids of the full list that are at the lookahead position or behind it. */
  function Pending(f: View, fok: bool): set<nat> {
    if fok then f.reach else {}
  }

  /** The two lookahead flags agree with the iterators. When the full list is exhausted, any id that a
      later Seek could still find in it above the position is also found in the list to remove. */
  ghost predicate LookaheadOK(f: View, r: View, fok: bool, rok: bool, cur: nat, floor: nat) {
    && (fok ==> f.posd && cur <= f.cur && floor == 0)
    && (rok ==> r.posd)
    && (fok && !rok ==> forall z :: z in r.reach ==> z < f.cur)
    && (!fok ==> f.todo == {} && forall y :: y in f.reach && cur < y && floor <= y ==> y in r.reach)
    && f.floor <= floor
    && (r.floor <= cur || r.floor <= floor || (fok && r.floor <= f.cur))
  }

  ghost predicate RemovedOK(f: View, r: View, initialized: bool, fok: bool, rok: bool, v: View) {
    if !initialized then
      && f.Unread() && r.Unread()
      && v == View(0, f.todo - r.todo, f.todo - r.todo, false, false, 0, f.fuel + 1)
    else
      && LookaheadOK(f, r, fok, rok, v.cur, v.floor)
      && v.todo == Pending(f, fok) - r.reach
      && v.reach <= v.todo + {v.cur} && (v.cur in v.reach || v.cur == 0)
      && v.fuel == f.fuel + (if fok then 1 else 0)
      && !v.spent && (r.floor <= v.cur || r.floor <= v.floor)
  }

  function RemovedView(f: View, r: View, fok: bool, cur: nat, reach: set<nat>): View {
    View(cur, Pending(f, fok) - r.reach, reach, true, false, 0, f.fuel + (if fok then 1 else 0))
  }

  /** The set difference v has moved on to cur. */
  ghost predicate RemovedHit(v: View, f: View, r: View, fok: bool, rok: bool, cur: nat) {
    var w := RemovedView(f, r, fok, cur, v.todo);
    w.Ok() && NextStep(v, true, w) && RemovedOK(f, r, true, fok, rok, w)
  }

  /** The lookahead stands on an id that is not to be removed: it becomes the position. */
  lemma RemovedEmit(f: View, r: View, rok: bool, v: View, ok: bool, f': View)
    requires f.Ok() && r.Ok() && f'.Ok() && v.Ok()
    requires LookaheadOK(f, r, true, rok, v.cur, v.floor)
    requires v.todo == f.reach - r.reach && f.fuel < v.fuel
    requires rok ==> f.cur < r.cur
    requires NextStep(f, ok, f')
    ensures RemovedHit(v, f', r, ok, rok, f.cur)
  {
    var w := RemovedView(f', r, ok, f.cur, v.todo);
    assert f.cur !in r.reach;
    assert w.reach == w.todo + {w.cur};
  }

  /** The lookahead stands on an id to be removed: it is skipped. */
  lemma RemovedSkip(f: View, r: View, v: View, ok: bool, f': View)
    requires f.Ok() && r.Ok() && f'.Ok()
    requires LookaheadOK(f, r, true, true, v.cur, v.floor)
    requires v.todo == f.reach - r.reach && f.cur == r.cur
    requires NextStep(f, ok, f')
    ensures LookaheadOK(f', r, ok, true, v.cur, v.floor)
    ensures v.todo == Pending(f', ok) - r.reach
  {
    assert f.cur in r.reach;
  }

  /** The list to remove is forwarded to the lookahead. */
  lemma RemovedForward(f: View, r: View, v: View, ok: bool, r': View)
    requires f.Ok() && r.Ok() && r'.Ok()
    requires LookaheadOK(f, r, true, true, v.cur, v.floor)
    requires v.todo == f.reach - r.reach
    requires SeekStep(r, f.cur, ok, r')
    ensures LookaheadOK(f, r', true, ok, v.cur, v.floor)
    ensures v.todo == f.reach - r'.reach
  {
    assert forall y :: y in f.reach ==> f.cur <= y;
  }

  /** The first calls of Next on both lists. */
  lemma RemovedFirst(f: View, r: View, v: View, fok: bool, f': View, rok: bool, r': View)
    requires f.Ok() && r.Ok() && f'.Ok() && r'.Ok()
    requires RemovedOK(f, r, false, false, false, v)
    requires NextStep(f, fok, f') && NextStep(r, rok, r')
    ensures LookaheadOK(f', r', fok, rok, v.cur, v.floor)
    ensures v.todo == Pending(f', fok) - r'.reach
    ensures f'.fuel + (if fok then 1 else 0) < v.fuel
  {
  }

  /** Both lists have been sought for x: the lookahead holds what was left from x on. */
  lemma RemovedSought(f: View, r: View, initialized: bool, fok: bool, rok: bool, v: View, x: nat,
                      f2: bool, f': View, r2: bool, r': View)
    requires f.Ok() && r.Ok() && f'.Ok() && r'.Ok() && v.Ok() && v.MaySeek(x) && v.cur < x
    requires RemovedOK(f, r, initialized, fok, rok, v)
    requires SeekStep(f, x, f2, f') && SeekStep(r, x, r2, r')
    ensures LookaheadOK(f', r', f2, r2, v.cur, if f2 then 0 else x)
    ensures Pending(f', f2) - r'.reach == From(v.todo, x)
  {
    assert forall y :: x <= y ==> (y in r.reach <==> y in r'.reach);
  }

  /** The view with which removedPostings.Seek enters the loop of Next. */
  function SoughtView(v: View, x: nat, f2: bool, fuel: nat): View {
    View(v.cur, From(v.todo, x), From(v.todo, x) + (v.reach * {v.cur}), false, false, if f2 then 0 else x, fuel)
  }

  /** The view of a set difference that has answered false. */
  function EndView(v: View, f: View, floor: nat): View {
    View(v.cur, {}, v.reach * {v.cur}, false, false, floor, f.fuel)
  }

  lemma RemovedSeekHit(v: View, x: nat, fuel: nat, f2: bool, f: View, r: View, fok: bool, rok: bool, d: nat)
    requires v.Ok() && v.cur < x && v.reach <= v.todo + {v.cur}
    requires fuel <= v.fuel || v.todo == {}
    requires RemovedHit(SoughtView(v, x, f2, fuel), f, r, fok, rok, d)
    ensures SeekStep(v, x, true, RemovedView(f, r, fok, d, From(v.todo, x)))
  {
    assert From(v.todo, x) == From(v.reach, x);
    assert From(v.todo, x) != {};
  }

  lemma RemovedSeekMiss(v: View, x: nat, f: View, floor: nat)
    requires v.Ok() && v.cur < x && floor <= x && v.reach <= v.todo + {v.cur}
    requires From(v.todo, x) == {} && f.fuel <= v.fuel
    ensures SeekStep(v, x, false, EndView(v, f, floor))
  {
    assert From(v.todo, x) == From(v.reach, x);
    assert forall y :: y in v.reach && x <= y ==> y in From(v.reach, x);
  }

}
