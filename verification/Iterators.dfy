// The postings iterators of pkg/inverted/index/postings.go.
//
// Dafny classes without traits stand for the Go interface: a `Postings` value is an object whose
// `kind` names the struct behind the interface and holds the iterators that struct drives; the
// mutable fields are the struct's own. Whatever its kind, an iterator meets the two contracts
// NextStep and SeekStep, which are those of a plain list.

module Iterators {
  import opened IteratorViews

  datatype Kind =
    | Empty
    | List
    | Intersect(arr: seq<Postings>)
    | Merged(its: seq<Postings>)
    | Removed(full: Postings, remove: Postings)

  ghost function Views(s: seq<Postings>): (vs: seq<View>)
    reads s
    ensures |vs| == |s| && forall i :: 0 <= i < |s| ==> vs[i] == s[i].v
  {
    seq(|s|, i requires 0 <= i < |s| reads s => s[i].v)
  }

  ghost function Keys(s: seq<Postings>): (ks: seq<nat>)
    reads s
    ensures |ks| == |s| && forall i :: 0 <= i < |s| ==> ks[i] == s[i].cur
  {
    seq(|s|, i requires 0 <= i < |s| reads s => s[i].cur)
  }

  ghost function Footprint(s: seq<Postings>): set<Postings> {
    set i, p | 0 <= i < |s| && p in s[i].Repr :: p
  }

  ghost predicate Disjoint(s: seq<Postings>) {
    forall i, j :: 0 <= i < j < |s| ==> s[i].Repr !! s[j].Repr
  }

  /** A well formed iterator that owns itself. */
  ghost predicate Free(p: Postings)
    reads p, p.Repr
  {
    p in p.Repr && p.Valid()
  }

  /** Iterators that share nothing. */
  ghost predicate AllFree(s: seq<Postings>)
    reads Footprint(s)
  {
    Disjoint(s) && forall i :: 0 <= i < |s| ==> s[i] in s[i].Repr && s[i].Valid()
  }

  ghost predicate AllSteady(s: seq<Postings>) {
    forall i :: 0 <= i < |s| ==> s[i].steady
  }

  ghost function AboveRanks(s: seq<Postings>): (r: nat)
    ensures forall i :: 0 <= i < |s| ==> s[i].rank < r
  {
    if s == [] then 0 else
      var r := AboveRanks(s[1..]);
      if r <= s[0].rank then s[0].rank + 1 else r
  }

  class Postings {
    const kind: Kind
    var cur: nat
    // ListPostings
    var list: seq<nat>
    // mergedPostings
    var h: seq<Postings>
    // mergedPostings and removedPostings
    var initialized: bool
    // removedPostings
    var fok: bool
    var rok: bool

    ghost var v: View
    ghost const Repr: set<Postings>
    ghost const rank: nat
    /** After a failed Seek a steady iterator still answers for all targets, a tame one for those from the
        failed target on. Only an intersection over set differences is not tame. */
    ghost const steady: bool
    ghost const tame: bool

    ghost predicate Owns(c: Postings) {
      && c in Repr && c.Repr <= Repr && this !in c.Repr && c in c.Repr && c.rank < rank
    }

    ghost predicate OwnsAll(s: seq<Postings>) {
      (forall i :: 0 <= i < |s| ==> Owns(s[i])) && Disjoint(s)
    }

    /** The driven iterators are well formed. */
    ghost predicate KidsValid(s: seq<Postings>)
      reads this, Repr
      decreases rank, 0
    {
      OwnsAll(s) && forall i :: 0 <= i < |s| ==> s[i].Valid()
    }

    ghost predicate Valid()
      reads this, Repr
      decreases rank, 2
      ensures Valid() ==> Self()
    {
      match kind
      case Empty => EmptyValid()
      case List => ListValid()
      case Intersect(arr) => IntersectValid(arr)
      case Merged(its) => MergedValid(its)
      case Removed(full, remove) => RemovedValid(full, remove)
    }

    ghost predicate Self()
      reads this
    {
      this in Repr && v.cur == cur && v.Ok() && (steady ==> tame && v.Alert()) && (tame ==> !v.spent)
    }

    ghost predicate EmptyValid()
      reads this
    {
      Self() && steady && v.reach == {} && !v.posd
    }

    ghost predicate ListValid()
      reads this
    {
      Self() && steady && ListOK(list, v)
    }

    ghost predicate IntersectValid(arr: seq<Postings>)
      reads this, Repr
      decreases rank, 1
    {
      Self() && KidsValid(arr) && steady == tame == AllSteady(arr) && MeetOK(Views(arr), v)
    }

    ghost predicate MergedValid(its: seq<Postings>)
      reads this, Repr
      decreases rank, 1
    {
      Self() && steady && KidsValid(its) && Entries(h, its) && MergedOK(Views(h), initialized, v)
    }

    ghost predicate RemovedValid(full: Postings, remove: Postings)
      reads this, Repr
      decreases rank, 1
    {
      && Self() && !steady && tame && PairValid(full, remove)
      && RemovedOK(full.v, remove.v, initialized, fok, rok, v)
    }

    ghost predicate PairValid(full: Postings, remove: Postings)
      reads this, Repr
      decreases rank, 0
    {
      && Owns(full) && Owns(remove) && full.Repr !! remove.Repr
      && full.Valid() && remove.Valid() && full.tame && remove.tame
    }

    constructor NewList(l: seq<nat>)
      requires Sorted(l)
      ensures Valid() && fresh(Repr) && kind == List && steady && tame && Free(this)
      ensures v == View(0, Elems(l), Elems(l), false, false, 0, |l|)
    {
      kind, list, cur := List, l, 0;
      h, initialized, fok, rok := [], false, false, false;
      Repr, rank, steady, tame := {this}, 0, true, true;
      v := View(0, Elems(l), Elems(l), false, false, 0, |l|);
    }

    constructor NewEmpty()
      ensures Valid() && fresh(Repr) && kind == Empty && steady && tame && Free(this)
      ensures v == View(0, {}, {}, false, false, 0, 0)
    {
      kind, list, cur := Empty, [], 0;
      h, initialized, fok, rok := [], false, false, false;
      Repr, rank, steady, tame := {this}, 0, true, true;
      v := View(0, {}, {}, false, false, 0, 0);
    }

    method ListNext() returns (ok: bool)
      requires ListValid()
      modifies this
      ensures ListValid() && NextStep(old(v), ok, v)
      ensures (ok, Cursor(cur, list)) == ListStep(old(Cursor(cur, list)), CallNext)
    {
      if |list| > 0 {
        ghost var w := View(list[0], Elems(list[1..]), v.todo, true, false, 0, |list| - 1);
        ListNextHit(list, v, w);
        cur := list[0];
        list := list[1..];
        v := w;
        return true;
      }
      assert Elems(list) == {};
      cur := 0;
      v := View(0, {}, {}, false, false, 0, 0);
      return false;
    }

    method ListSeek(x: nat) returns (ok: bool)
      requires ListValid()
      modifies this
      ensures ListValid() && if x > 0 || old(v.posd) then SeekStep(old(v), x, ok, v) else ok && v == old(v)
      ensures (ok, Cursor(cur, list)) == ListStep(old(Cursor(cur, list)), CallSeek(x))
    {
      if cur >= x {
        if x > 0 || v.posd {
          ListSeekStay(list, v, x);
          v := v.(posd := true);
        }
        return true;
      }
      if |list| == 0 {
        ListSeekMiss(list, v, x, View(cur, {}, v.reach * {cur}, false, false, 0, 0));
        v := View(cur, {}, v.reach * {cur}, false, false, 0, 0);
        return false;
      }
      ok := ListLand(x);
    }

    /** The binary search of Seek, and the move to what it finds. */
    method ListLand(x: nat) returns (ok: bool)
      requires ListValid() && cur < x
      modifies this
      ensures ListValid() && SeekStep(old(v), x, ok, v)
      ensures (ok, Cursor(cur, list)) == Landing(old(Cursor(cur, list)), Skipped(old(list), x))
    {
      var i := SearchList(list, x);
      if i < |list| {
        ghost var w := View(list[i], Elems(list[i + 1..]), From(v.reach, x), true, false, 0, |list| - i - 1);
        ListSeekHit(list, v, x, i, w);
        cur := list[i];
        list := list[i + 1..];
        v := w;
        return true;
      }
      ListSeekMiss(list, v, x, View(cur, {}, v.reach * {cur}, false, false, 0, 0));
      list := [];
      v := View(cur, {}, v.reach * {cur}, false, false, 0, 0);
      return false;
    }

    // ---- intersectPostings

    constructor NewIntersect(arr: seq<Postings>)
      requires |arr| > 0 && AllFree(arr)
      ensures Valid() && fresh(Repr - Footprint(arr)) && kind == Intersect(arr) && Free(this)
      ensures steady == tame == AllSteady(arr)
      ensures v == MeetView(Views(arr), 0, false)
    {
      kind, list, cur := Intersect(arr), [], 0;
      h, initialized, fok, rok := [], false, false, false;
      Repr, rank := {this} + Footprint(arr), AboveRanks(arr);
      steady, tame := AllSteady(arr), AllSteady(arr);
      v := MeetView(Views(arr), 0, false);
      new;
      assert forall i :: 0 <= i < |arr| ==> arr[i].v.Ok();
      MeetViewOk(Views(arr), 0, false);
    }

    /** intersectPostings.doNext from position c: the new position, and whether an id was found. */
    method IntersectDoNext(arr: seq<Postings>, c: nat) returns (ok: bool, d: nat)
      requires |arr| > 0 && KidsValid(arr) && AllAlert(Views(arr))
      requires c > 0 || EachPosd(Views(arr))
      modifies Footprint(arr)
      ensures KidsValid(arr) && AllOk(Views(arr))
      ensures LeapStep(old(Views(arr)), c, ok, Views(arr), d)
      decreases rank, 1
    {
      ghost var us := Views(arr);
      var i := 0;
      d := c;
      while i < |arr|
        invariant i <= |arr| && KidsValid(arr)
        invariant LeapInv(us, c, Views(arr), d, i)
        decreases Above(UnionReach(us), d), |arr| - i
      {
        ghost var ws := Views(arr);
        var found := SeekKid(arr, i, arr[i], d);
        if !found {
          LeapFailed(us, ws, c, d, i, arr[i].v);
          KidsOk(arr);
          return false, d;
        }
        LeapSeekHit(us, ws, c, d, i, arr[i].v);
        if arr[i].cur > d {
          // the code starts the round over
          d := arr[i].cur;
          i := 0;
        } else {
          i := i + 1;
        }
      }
      KidsOk(arr);
      LeapFound(us, Views(arr), c, d);
      return true, d;
    }

    /** The loop of intersectPostings.Next over the driven iterators: the highest position met. */
    method IntersectNextAll(arr: seq<Postings>, c: nat) returns (ok: bool, d: nat, ghost k: nat)
      requires KidsValid(arr)
      modifies Footprint(arr)
      ensures KidsValid(arr) && AllOk(Views(arr))
      ensures if ok then NextRound(old(Views(arr)), c, Views(arr), d, |arr|)
              else RoundFailed(old(Views(arr)), Views(arr), k)
      decreases rank, 1
    {
      ghost var us := Views(arr);
      var i := 0;
      d := c;
      while i < |arr|
        invariant i <= |arr| && KidsValid(arr)
        invariant NextRound(us, c, Views(arr), d, i)
      {
        ghost var ms := Views(arr);
        var found := NextKid(arr, i, arr[i]);
        if !found {
          KidsOk(arr);
          return false, d, i;
        }
        NextRoundGrows(us, c, ms, d, i, arr[i].v);
        if arr[i].cur > d {
          d := arr[i].cur;
        }
        i := i + 1;
      }
      KidsOk(arr);
      return true, d, i;
    }

    /** The position and the ghost view follow the driven iterators. */
    method IntersectMoveTo(arr: seq<Postings>, d: nat, ghost w: View)
      requires this in Repr && KidsValid(arr) && steady == tame == AllSteady(arr)
      requires MeetOK(Views(arr), w) && w.Ok() && w.cur == d
      modifies this`cur, this`v
      ensures IntersectValid(arr) && v == w
    {
      ghost var vs := Views(arr);
      cur := d;
      v := w;
      assert Views(arr) == vs;
    }

    /** A round of Next and the leapfrog after it: the answer and the view of the intersection from then on. */
    method IntersectAdvance(arr: seq<Postings>) returns (ok: bool, d: nat, ghost w: View)
      requires IntersectValid(arr)
      modifies Footprint(arr)
      ensures KidsValid(arr) && MeetOK(Views(arr), w) && w.Ok() && w.cur == d
      ensures NextStep(v, ok, w)
      decreases rank, 2
    {
      ghost var us, k := Views(arr), 0;
      KidsOk(arr);
      ok, d, k := IntersectNextAll(arr, cur);
      ghost var ms, c := Views(arr), d;
      if ok {
        ok, d := IntersectDoNext(arr, d);
        MeetNextHit(us, v, ms, c, ok, Views(arr), d);
      } else {
        MeetNextMiss(us, v, ms, k, d);
      }
      w := MeetView(Views(arr), d, ok);
    }

    method IntersectNext(arr: seq<Postings>) returns (ok: bool)
      requires IntersectValid(arr)
      modifies Repr
      ensures IntersectValid(arr) && NextStep(old(v), ok, v)
      decreases rank, 3
    {
      var d: nat;
      ghost var w: View;
      ok, d, w := IntersectAdvance(arr);
      IntersectMoveTo(arr, d, w);
    }

    method IntersectSeek(arr: seq<Postings>, x: nat) returns (ok: bool)
      requires IntersectValid(arr) && v.MaySeek(x)
      modifies Repr
      ensures IntersectValid(arr) && SeekStep(old(v), x, ok, v)
      decreases rank, 2
    {
      ghost var us := Views(arr);
      var d: nat;
      ok, d := IntersectDoNext(arr, x);
      MeetSeek(us, v, x, ok, Views(arr), d);
      IntersectMoveTo(arr, d, MeetView(Views(arr), d, ok));
    }

    constructor NewMerged(its: seq<Postings>, ph: seq<Postings>)
      requires AllFree(its) && Entries(ph, its) && AllPosd(Views(ph))
      ensures Valid() && fresh(Repr - Footprint(its)) && kind == Merged(its) && steady && tame && Free(this)
      ensures v == MergedView(Views(ph), false, 0)
    {
      kind, list, cur := Merged(its), [], 0;
      h, initialized, fok, rok := ph, false, false, false;
      Repr, rank, steady, tame := {this} + Footprint(its), AboveRanks(its), true, true;
      v := MergedView(Views(ph), false, 0);
    }

    constructor NewRemoved(full: Postings, remove: Postings)
      requires AllFree([full, remove]) && full.tame && remove.tame && full.v.Unread() && remove.v.Unread()
      ensures Valid() && fresh(Repr - Footprint([full, remove])) && kind == Removed(full, remove) && tame && Free(this)
      ensures v.Unread() && v.todo == full.v.todo - remove.v.todo
    {
      kind, list, cur := Removed(full, remove), [], 0;
      h, initialized, fok, rok := [], false, false, false;
      Repr, rank, steady, tame := {this} + full.Repr + remove.Repr, AboveRanks([full, remove]), false, true;
      v := View(0, full.v.todo - remove.v.todo, full.v.todo - remove.v.todo, false, false, 0, full.v.fuel + 1);
      new;
      assert [full, remove][0] == full && [full, remove][1] == remove;
      assert full.rank < rank && remove.rank < rank;
    }

    lemma KidsOk(s: seq<Postings>)
      requires KidsValid(s)
      ensures AllOk(Views(s))
    {
      forall i | 0 <= i < |s| ensures s[i].v.Ok() {
        assert s[i].Valid();
      }
    }

    // ---- calls to a driven iterator: the others keep their state

    method NextKid(ghost s: seq<Postings>, ghost i: nat, kid: Postings) returns (ok: bool)
      requires KidsValid(s) && i < |s| && kid == s[i]
      modifies kid.Repr
      ensures KidsValid(s) && NextStep(old(kid.v), ok, kid.v)
      ensures Views(s) == old(Views(s))[i := kid.v]
      decreases rank, 0
    {
      ok := kid.Next();
    }

    method SeekKid(ghost s: seq<Postings>, ghost i: nat, kid: Postings, x: nat) returns (ok: bool)
      requires KidsValid(s) && i < |s| && kid == s[i] && kid.v.MaySeek(x)
      modifies kid.Repr
      ensures KidsValid(s) && SeekStep(old(kid.v), x, ok, kid.v)
      ensures Views(s) == old(Views(s))[i := kid.v]
      decreases rank, 0
    {
      ok := kid.Seek(x);
    }

    // ---- mergedPostings

    /** What the loops of mergedPostings keep, their heap in a local variable. */
    ghost predicate HeapValid(its: seq<Postings>, hp: seq<Postings>)
      reads this, Repr
      decreases rank, 1
    {
      KidsValid(its) && Entries(hp, its) && HeapOK(Views(hp))
    }

    lemma HeapEntries(its: seq<Postings>, hp: seq<Postings>)
      requires KidsValid(its) && Entries(hp, its)
      ensures forall i :: 0 <= i < |hp| ==> hp[i] != this && hp[i].v.Ok()
      ensures forall i, j :: 0 <= i < j < |hp| ==> hp[i] != hp[j]
      ensures Mirrored(hp)
    {
      forall i | 0 <= i < |hp|
        ensures hp[i] != this && hp[i].v.Ok() && hp[i].v.cur == hp[i].cur
      {
        var k :| 0 <= k < |its| && its[k] == hp[i];
        assert its[k].Valid();
      }
      forall i, j | 0 <= i < j < |hp|
        ensures hp[i] != hp[j]
      {
        if hp[i] == hp[j] {
          CountTwice(hp, i, j);
          CountOnce(its, hp[i]);
        }
      }
    }

    /** The top of the heap is asked for its next id. */
    method TopNext(its: seq<Postings>, hp: seq<Postings>) returns (ok: bool)
      requires HeapValid(its, hp) && hp != []
      modifies hp[0].Repr
      ensures KidsValid(its) && Mirrored(hp) && Views(hp) == old(Views(hp))[0 := hp[0].v]
      ensures hp[0].v.Ok() && NextStep(old(hp[0].v), ok, hp[0].v)
      ensures ok ==> SumFuel(Views(its)) < old(SumFuel(Views(its)))
      decreases rank, 1
    {
      HeapEntries(its, hp);
      ghost var us, vs := Views(its), Views(hp);
      ghost var k :| 0 <= k < |its| && its[k] == hp[0];
      ok := NextKid(its, k, hp[0]);
      HeapFollows(its, us, hp, vs, k);
      HeapEntries(its, hp);
      if ok {
        SumFuelDrops(us, k, hp[0].v);
      }
    }

    /** The top of the heap is asked for an id at or above x. */
    method TopSeek(its: seq<Postings>, hp: seq<Postings>, x: nat) returns (ok: bool)
      requires HeapValid(its, hp) && hp != [] && hp[0].v.cur < x
      modifies hp[0].Repr
      ensures KidsValid(its) && Mirrored(hp) && Views(hp) == old(Views(hp))[0 := hp[0].v]
      ensures hp[0].v.Ok() && SeekStep(old(hp[0].v), x, ok, hp[0].v)
      ensures ok ==> SumFuel(Views(its)) < old(SumFuel(Views(its)))
      decreases rank, 1
    {
      HeapEntries(its, hp);
      ghost var us, vs := Views(its), Views(hp);
      ghost var k :| 0 <= k < |its| && its[k] == hp[0];
      ok := SeekKid(its, k, hp[0], x);
      HeapFollows(its, us, hp, vs, k);
      HeapEntries(its, hp);
      if ok {
        assert hp[0].v.cur in From(us[k].reach, x);
        SumFuelDrops(us, k, hp[0].v);
      }
    }

    /** One turn of the loop of mergedPostings.Next: the top of the heap moves on, or leaves. */
    method MergedNextTop(its: seq<Postings>, hp: seq<Postings>, ghost x: nat) returns (hp': seq<Postings>)
      requires HeapValid(its, hp) && hp != [] && hp[0].v.cur == x
      modifies hp[0].Repr
      ensures HeapValid(its, hp')
      ensures KeepsAbove(old(Views(hp)), Views(hp'), x)
      ensures LessWork(|hp'|, Views(its), |hp|, old(Views(its)))
      decreases rank, 2
    {
      ghost var vs := Views(hp);
      var ok := TopNext(its, hp);
      hp' := TopSettled(hp, ok, vs, x);
      EntriesKept(hp, hp', its);
    }

    /** One turn of the loop of mergedPostings.Seek: nothing above lo, that is from x on, is lost. */
    method MergedSeekTop(its: seq<Postings>, hp: seq<Postings>, x: nat, ghost lo: nat) returns (hp': seq<Postings>)
      requires HeapValid(its, hp) && hp != [] && hp[0].v.cur < x && x == lo + 1
      modifies hp[0].Repr
      ensures HeapValid(its, hp')
      ensures KeepsAbove(old(Views(hp)), Views(hp'), lo)
      ensures LessWork(|hp'|, Views(its), |hp|, old(Views(its)))
      decreases rank, 2
    {
      ghost var vs := Views(hp);
      var ok := TopSeek(its, hp, x);
      SeekAbove(vs[0], lo, x, ok, hp[0].v);
      hp' := TopSettled(hp, ok, vs, lo);
      EntriesKept(hp, hp', its);
    }

    /** The heap, the position and the ghost view after a call that has changed them. */
    method MergedMoveTo(its: seq<Postings>, hp: seq<Postings>, d: nat, ghost w: View)
      requires this in Repr && steady && tame && KidsValid(its) && Entries(hp, its)
      requires MergedOK(Views(hp), true, w) && w.Ok() && w.cur == d
      modifies this`h, this`initialized, this`cur, this`v
      ensures MergedValid(its) && v == w
    {
      HeapEntries(its, hp);
      ghost var vs := Views(hp);
      h := hp;
      initialized := true;
      cur := d;
      v := w;
      assert Views(h) == vs;
    }

    method MergedNext(its: seq<Postings>) returns (ok: bool)
      requires MergedValid(its)
      modifies Repr
      ensures MergedValid(its) && NextStep(old(v), ok, v)
      ensures ok ==> v.cur !in v.todo
      decreases rank, 4
    {
      if |h| == 0 {
        return false;
      }
      var hp;
      if !initialized {
        hp := MergedInit(its);
        ok := true;
      } else {
        ok, hp := MergedNextLoop(its);
      }
      HeapEntries(its, hp);
      if ok {
        MergedNextHit(v, Views(hp));
        MergedMoveTo(its, hp, hp[0].cur, MergedView(Views(hp), true, hp[0].v.cur));
      } else {
        MergedMoveTo(its, hp, cur, MergedView([], true, cur));
      }
    }

    method MergedInit(its: seq<Postings>) returns (hp: seq<Postings>)
      requires MergedValid(its) && h != [] && !initialized
      ensures HeapValid(its, hp) && hp != [] && UnionReach(Views(hp)) == v.todo
    {
      HeapEntries(its, h);
      hp := HeapInit(h);
      SameMembers(h, hp);
      UnionSame(Views(h), Views(hp));
      MembersOf(hp, h);
    }

    /** The loop of mergedPostings.Next: moves the heap past the position. */
    method MergedNextLoop(its: seq<Postings>) returns (ok: bool, hp: seq<Postings>)
      requires MergedValid(its) && h != [] && initialized
      modifies Footprint(its)
      ensures HeapValid(its, hp) && ok == (hp != [])
      ensures UnionReach(Views(hp)) == v.todo
      decreases rank, 3
    {
      hp := h;
      ghost var us, ws := Views(h), Views(h);
      while true
        invariant HeapValid(its, hp) && Views(hp) == ws
        invariant ws != [] && ws[0].cur == cur && KeepsAbove(us, ws, cur)
        decreases |hp|, SumFuel(Views(its))
      {
        hp := MergedNextTop(its, hp, cur);
        ws := Views(hp);
        HeapEntries(its, hp);
        if |hp| == 0 {
          TopIsLeast(us);
          return false, hp;
        }
        if hp[0].cur != cur {
          TopPasses(us, ws, cur);
          return true, hp;
        }
      }
    }

    method MergedSeek(its: seq<Postings>, x: nat) returns (ok: bool)
      requires MergedValid(its) && (x > 0 || v.posd)
      modifies Repr
      ensures MergedValid(its) && SeekStep(old(v), x, ok, v)
      ensures ok ==> v.cur !in v.todo
      decreases rank, 5
    {
      if |h| == 0 {
        return false;
      }
      if !initialized {
        ok := MergedNext(its);
        if !ok {
          return false;
        }
      }
      ok := MergedSeekFrom(its, x);
    }

    /** mergedPostings.Seek once the heap is in order. */
    method MergedSeekFrom(its: seq<Postings>, x: nat) returns (ok: bool)
      requires MergedValid(its) && v.posd && initialized
      modifies Repr
      ensures MergedValid(its) && SeekStep(old(v), x, ok, v)
      decreases rank, 4
    {
      ghost var vs := Views(h);
      if cur >= x {
        MergedSeekStay(vs, v, x);
        return true;
      }
      var hp;
      hp, ok := MergedSeekLoop(its, x, x - 1);
      HeapEntries(its, hp);
      if ok {
        MergedSeekHit(vs, v, x, Views(hp));
        MergedMoveTo(its, hp, hp[0].cur, MergedView(Views(hp), true, hp[0].v.cur));
      } else {
        MergedSeekMiss(vs, v, x, cur);
        MergedMoveTo(its, hp, cur, MergedView([], true, cur));
      }
    }

    method MergedSeekLoop(its: seq<Postings>, x: nat, ghost lo: nat) returns (hp: seq<Postings>, ok: bool)
      requires MergedValid(its) && h != [] && initialized && x == lo + 1
      modifies Footprint(its)
      ensures HeapValid(its, hp) && ok == (hp != []) && (ok ==> x <= hp[0].v.cur)
      ensures KeepsAbove(old(Views(h)), Views(hp), lo)
      decreases rank, 3
    {
      hp := h;
      ghost var us := Views(h);
      HeapEntries(its, hp);
      while hp[0].cur < x
        invariant HeapValid(its, hp) && hp != [] && Mirrored(hp)
        invariant KeepsAbove(us, Views(hp), lo)
        decreases |hp|, SumFuel(Views(its))
      {
        hp := MergedSeekTop(its, hp, x, lo);
        HeapEntries(its, hp);
        if |hp| == 0 {
          return hp, false;
        }
      }
      return hp, true;
    }

    // ---- removedPostings

    /** The lookahead of a set difference, the flags of its two calls in local variables. */
    ghost predicate LookaheadValid(full: Postings, remove: Postings, f: bool, r: bool, w: View)
      reads this, Repr
      decreases rank, 1
    {
      && PairValid(full, remove)
      && LookaheadOK(full.v, remove.v, f, r, w.cur, w.floor)
      && w.todo == Pending(full.v, f) - remove.v.reach
    }

    method NextFull(full: Postings, remove: Postings) returns (ok: bool)
      requires PairValid(full, remove)
      modifies full.Repr
      ensures PairValid(full, remove) && remove.v == old(remove.v)
      ensures full.v.Ok() && remove.v.Ok() && full.cur == full.v.cur && remove.cur == remove.v.cur && NextStep(old(full.v), ok, full.v)
      decreases rank, 0
    {
      ok := full.Next();
    }

    method NextRemove(full: Postings, remove: Postings) returns (ok: bool)
      requires PairValid(full, remove)
      modifies remove.Repr
      ensures PairValid(full, remove) && full.v == old(full.v)
      ensures full.v.Ok() && remove.v.Ok() && full.cur == full.v.cur && remove.cur == remove.v.cur && NextStep(old(remove.v), ok, remove.v)
      decreases rank, 0
    {
      ok := remove.Next();
    }

    method SeekFull(full: Postings, remove: Postings, x: nat) returns (ok: bool)
      requires PairValid(full, remove) && full.v.MaySeek(x)
      modifies full.Repr
      ensures PairValid(full, remove) && remove.v == old(remove.v)
      ensures full.v.Ok() && remove.v.Ok() && full.cur == full.v.cur && remove.cur == remove.v.cur && SeekStep(old(full.v), x, ok, full.v)
      decreases rank, 0
    {
      ok := full.Seek(x);
    }

    method SeekRemove(full: Postings, remove: Postings, x: nat) returns (ok: bool)
      requires PairValid(full, remove) && remove.v.MaySeek(x)
      modifies remove.Repr
      ensures PairValid(full, remove) && full.v == old(full.v)
      ensures full.v.Ok() && remove.v.Ok() && full.cur == full.v.cur && remove.cur == remove.v.cur && SeekStep(old(remove.v), x, ok, remove.v)
      decreases rank, 0
    {
      ok := remove.Seek(x);
    }

    method RemovedMoveTo(full: Postings, remove: Postings, d: nat, f: bool, r: bool, ghost w: View)
      requires this in Repr && !steady && tame && LookaheadValid(full, remove, f, r, w)
      requires RemovedOK(full.v, remove.v, true, f, r, w) && w.Ok() && w.cur == d
      modifies this`cur, this`fok, this`rok, this`initialized, this`v
      ensures RemovedValid(full, remove) && v == w
    {
      cur, fok, rok := d, f, r;
      initialized := true;
      v := w;
    }

    /** The loop of removedPostings.Next: an id of full that is not in remove, and a new lookahead. */
    method RemovedLoop(full: Postings, remove: Postings, f0: bool, r0: bool, ghost v0: View)
      returns (ok: bool, d: nat, f: bool, r: bool)
      requires LookaheadValid(full, remove, f0, r0, v0) && v0.Ok()
      requires full.v.fuel + (if f0 then 1 else 0) <= v0.fuel
      modifies full.Repr, remove.Repr
      ensures full.v.fuel <= old(full.v.fuel)
      ensures !ok ==> LookaheadValid(full, remove, f, r, v0) && !f
      ensures ok ==> LookaheadValid(full, remove, f, r, RemovedView(full.v, remove.v, f, d, v0.todo))
      ensures ok ==> RemovedHit(v0, full.v, remove.v, f, r, d)
      decreases rank, 1
    {
      f, r, d := f0, r0, 0;
      while true
        invariant LookaheadValid(full, remove, f, r, v0)
        invariant full.v.fuel + (if f then 1 else 0) <= v0.fuel && full.v.fuel <= old(full.v.fuel)
        decreases if f then full.v.fuel + 1 else 0, if r && remove.v.cur < full.v.cur then 1 else 0
      {
        if !f {
          return false, d, f, r;
        }
        ghost var fv, rv := full.v, remove.v;
        if !r {
          d := full.cur;
          f := NextFull(full, remove);
          RemovedEmit(fv, rv, r, v0, f, full.v);
          return true, d, f, r;
        }
        if full.cur < remove.cur {
          d := full.cur;
          f := NextFull(full, remove);
          RemovedEmit(fv, rv, r, v0, f, full.v);
          return true, d, f, r;
        } else if remove.cur < full.cur {
          r := SeekRemove(full, remove, full.cur);
          RemovedForward(fv, rv, v0, r, remove.v);
        } else {
          f := NextFull(full, remove);
          RemovedSkip(fv, rv, v0, f, full.v);
        }
      }
    }

    method RemovedNext(full: Postings, remove: Postings) returns (ok: bool)
      requires RemovedValid(full, remove)
      modifies Repr
      ensures RemovedValid(full, remove) && NextStep(old(v), ok, v)
      decreases rank, 2
    {
      ghost var fv, rv := full.v, remove.v;
      var f, r, d := fok, rok, cur;
      if !initialized {
        f := NextFull(full, remove);
        r := NextRemove(full, remove);
        RemovedFirst(fv, rv, v, f, full.v, r, remove.v);
      }
      ok, d, f, r := RemovedLoop(full, remove, f, r, v);
      if ok {
        RemovedMoveTo(full, remove, d, f, r, RemovedView(full.v, remove.v, f, d, v.todo));
      } else {
        RemovedMoveTo(full, remove, cur, f, r, EndView(v, full.v, v.floor));
      }
    }

    method RemovedSeek(full: Postings, remove: Postings, x: nat) returns (ok: bool)
      requires RemovedValid(full, remove) && v.MaySeek(x)
      modifies Repr
      ensures RemovedValid(full, remove) && SeekStep(old(v), x, ok, v)
      decreases rank, 2
    {
      if cur >= x {
        v := v.(posd := true);
        return true;
      }
      var f, r, d;
      ghost var v0;
      f, r, v0 := RemovedSeekBoth(full, remove, x);
      ghost var f2 := f;
      ok, d, f, r := RemovedLoop(full, remove, f, r, v0);
      if ok {
        RemovedSeekHit(v, x, v0.fuel, f2, full.v, remove.v, f, r, d);
        RemovedMoveTo(full, remove, d, f, r, RemovedView(full.v, remove.v, f, d, v0.todo));
      } else {
        RemovedSeekMiss(v, x, full.v, v0.floor);
        RemovedMoveTo(full, remove, cur, f, r, EndView(v, full.v, v0.floor));
      }
    }

    /** The two calls of Seek: the flags, and the view with which the loop of Next is entered. */
    method RemovedSeekBoth(full: Postings, remove: Postings, x: nat) returns (f: bool, r: bool, ghost v0: View)
      requires RemovedValid(full, remove) && v.MaySeek(x) && v.cur < x
      modifies full.Repr, remove.Repr
      ensures v0 == SoughtView(v, x, f, full.v.fuel + (if f then 1 else 0)) && v0.Ok()
      ensures LookaheadValid(full, remove, f, r, v0)
      ensures full.v.fuel <= v.fuel && (v0.fuel <= v.fuel || v.todo == {})
      decreases rank, 1
    {
      ghost var fv, rv := full.v, remove.v;
      f := SeekFull(full, remove, x);
      r := SeekRemove(full, remove, x);
      RemovedSought(fv, rv, initialized, fok, rok, v, x, f, full.v, r, remove.v);
      v0 := SoughtView(v, x, f, full.v.fuel + (if f then 1 else 0));
    }

    // ---- Postings: a call goes to the struct behind the interface

    method Next() returns (ok: bool)
      requires Valid()
      modifies Repr
      ensures Valid() && NextStep(old(v), ok, v)
      ensures ok && kind.Merged? ==> v.cur !in v.todo
      decreases rank, 6
    {
      match kind
      case Empty =>
        return false;
      case List =>
        ok := ListNext();
      case Intersect(arr) =>
        ok := IntersectNext(arr);
      case Merged(its) =>
        ok := MergedNext(its);
      case Removed(full, remove) =>
        ok := RemovedNext(full, remove);
    }

    method Seek(x: nat) returns (ok: bool)
      requires Valid() && v.MaySeek(x)
      modifies Repr
      ensures Valid() && SeekStep(old(v), x, ok, v)
      ensures ok && kind.Merged? ==> v.cur !in v.todo
      decreases rank, 6
    {
      match kind
      case Empty =>
        return false;
      case List =>
        ok := ListSeek(x);
      case Intersect(arr) =>
        ok := IntersectSeek(arr, x);
      case Merged(its) =>
        ok := MergedSeek(its, x);
      case Removed(full, remove) =>
        ok := RemovedSeek(full, remove, x);
    }
  }

  lemma CountTwice<T>(s: seq<T>, i: nat, j: nat)
    requires i < j < |s| && s[i] == s[j]
    ensures multiset(s)[s[i]] >= 2
  {
    assert s == s[..j] + [s[j]] + s[j + 1..];
    assert s[i] in s[..j];
  }

  lemma {:induction false} CountOnce<T>(s: seq<T>, x: T)
    requires forall i, j :: 0 <= i < j < |s| ==> s[i] != s[j]
    ensures multiset(s)[x] <= 1
  {
    if s != [] {
      CountOnce(s[1..], x);
      assert s == [s[0]] + s[1..];
      if x == s[0] {
        assert x !in s[1..];
      }
    }
  }

  lemma MembersOf(s: seq<Postings>, t: seq<Postings>)
    requires multiset(s) <= multiset(t)
    ensures forall i :: 0 <= i < |s| ==> s[i] in t
  {
    forall i | 0 <= i < |s| ensures s[i] in t {
      assert s[i] in multiset(s);
    }
  }

  lemma EntriesKept(hp: seq<Postings>, hp': seq<Postings>, its: seq<Postings>)
    requires Entries(hp, its) && multiset(hp') <= multiset(hp)
    ensures Entries(hp', its)
  {
    MembersOf(hp', hp);
  }

  lemma SameMembers(s: seq<Postings>, t: seq<Postings>)
    requires multiset(s) == multiset(t)
    ensures |s| == |t| && SameViews(Views(s), Views(t)) && (Mirrored(s) ==> Mirrored(t))
  {
    assert |s| == |multiset(s)| && |t| == |multiset(t)|;
    forall i | 0 <= i < |s| ensures s[i] in t {
      assert s[i] in multiset(s);
    }
    forall i | 0 <= i < |t| ensures t[i] in s {
      assert t[i] in multiset(t);
    }
  }

  // ---- container/heap over postingsHeap, ordered by the positions of its iterators

  function Swap<T>(s: seq<T>, i: nat, j: nat): (r: seq<T>)
    requires i < |s| && j < |s|
    ensures multiset(r) == multiset(s)
  {
    s[i := s[j]][j := s[i]]
  }

  lemma LastForFirst<T>(s: seq<T>, t: seq<T>)
    requires s != [] && multiset(s) == multiset(t) && |s| == |t| && t[|t| - 1] == s[0]
    ensures multiset(t[..|t| - 1]) == multiset(s[1..])
  {
    assert s == [s[0]] + s[1..];
    assert t == t[..|t| - 1] + [s[0]];
    assert multiset(s[1..]) == multiset(s) - multiset([s[0]]);
    assert multiset(t[..|t| - 1]) == multiset(t) - multiset([s[0]]);
  }

  /** The child with which the entry at i has to change places, or i itself. */
  method HeapLower(h: seq<Postings>, i: nat) returns (j: nat)
    ensures SiftsTo(Keys(h), i, j)
  {
    j := 2 * i + 1;
    if j >= |h| {
      return i;
    }
    if j + 1 < |h| && h[j + 1].cur < h[j].cur {
      j := j + 1;
    }
    if h[j].cur >= h[i].cur {
      return i;
    }
  }

  method HeapDown(h0: seq<Postings>, i0: nat) returns (h: seq<Postings>)
    requires HeapFrom(Keys(h0), i0 + 1)
    ensures multiset(h) == multiset(h0) && |h| == |h0|
    ensures HeapFrom(Keys(h), i0)
  {
    h := h0;
    ghost var ks := Keys(h);
    var i := i0;
    var j := HeapLower(h, i);
    while i < j
      invariant multiset(h) == multiset(h0) && |h| == |h0|
      invariant Keys(h) == ks && SiftInv(ks, i0, i) && SiftsTo(ks, i, j)
      decreases |h| - i
    {
      SiftStep(h, i0, i, j);
      h := Swap(h, i, j);
      ks := Keys(h);
      i := j;
      j := HeapLower(h, i);
    }
    SiftDone(ks, i0, i);
  }

  lemma SiftStep(h: seq<Postings>, i0: nat, i: nat, j: nat)
    requires SiftInv(Keys(h), i0, i) && SiftsTo(Keys(h), i, j) && i < j
    ensures j < |h| && SiftInv(Keys(Swap(h, i, j)), i0, j)
  {
    KeysSwap(h, i, j);
    SiftSwap(Keys(h), i0, i, j);
  }

  lemma KeysSwap(h: seq<Postings>, i: nat, j: nat)
    requires i < |h| && j < |h|
    ensures Keys(Swap(h, i, j)) == Keys(h)[i := Keys(h)[j]][j := Keys(h)[i]]
  {
  }

  method HeapInit(h0: seq<Postings>) returns (h: seq<Postings>)
    ensures multiset(h) == multiset(h0) && |h| == |h0|
    ensures HeapFrom(Keys(h), 0)
  {
    h := h0;
    var i: nat := |h| / 2;
    while i > 0
      invariant multiset(h) == multiset(h0) && |h| == |h0|
      invariant HeapFrom(Keys(h), i)
    {
      i := i - 1;
      h := HeapDown(h, i);
    }
  }

  /** heap.Fix at the top: sift it down; sifting the top up does nothing. */
  method HeapFixTop(h0: seq<Postings>) returns (h: seq<Postings>)
    requires h0 != [] && HeapFrom(Keys(h0), 1)
    ensures multiset(h) == multiset(h0) && |h| == |h0|
    ensures HeapFrom(Keys(h), 0)
  {
    h := HeapDown(h0, 0);
  }

  /** heap.Pop: the top changes places with the last entry, and leaves. */
  method HeapPop(h0: seq<Postings>) returns (h: seq<Postings>)
    requires h0 != [] && HeapFrom(Keys(h0), 1)
    ensures multiset(h) == multiset(h0[1..])
    ensures HeapFrom(Keys(h), 0)
  {
    var n := |h0| - 1;
    var swapped := Swap(h0, 0, n);
    LastForFirst(h0, swapped);
    assert HeapFrom(Keys(swapped[..n]), 1);
    h := HeapDown(swapped[..n], 0);
  }

  /** The heap entries are iterators of `its`, each at most once. */
  ghost predicate Entries(hp: seq<Postings>, its: seq<Postings>) {
    (forall i :: 0 <= i < |hp| ==> hp[i] in its) && multiset(hp) <= multiset(its)
  }

  /** The fields agree with the ghost view. */
  ghost predicate Mirrored(s: seq<Postings>)
    reads s
  {
    forall i :: 0 <= i < |s| ==> s[i].cur == s[i].v.cur
  }

  lemma HeapFollows(its: seq<Postings>, us: seq<View>, h: seq<Postings>, vs: seq<View>, k: nat)
    requires |us| == |its| && |vs| == |h| > 0 && k < |its| && h[0] == its[k]
    requires Views(its) == us[k := its[k].v]
    requires forall i :: 0 <= i < |h| ==> h[i] in its
    requires forall i, m :: 0 <= i < |h| && 0 <= m < |its| && h[i] == its[m] ==> vs[i] == us[m]
    requires forall i :: 0 < i < |h| ==> h[i] != h[0]
    ensures Views(h) == vs[0 := h[0].v]
  {
    forall i | 0 < i < |h| ensures h[i].v == vs[i] {
      var m :| 0 <= m < |its| && its[m] == h[i];
      assert Views(its)[m] == us[m];
    }
  }

  /** The top of the heap has moved from vs[0]: the code fixes the heap. */
  method TopMoved(h0: seq<Postings>, ghost vs: seq<View>, ghost x: nat) returns (h: seq<Postings>)
    requires h0 != [] && Mirrored(h0) && HeapOK(vs) && |vs| == |h0|
    requires Views(h0) == vs[0 := h0[0].v] && h0[0].v.posd && h0[0].v.Ok() && h0[0].v.reach <= vs[0].reach
    requires Above(vs[0].reach, x) == Above(h0[0].v.reach, x)
    ensures multiset(h) == multiset(h0) && |h| == |h0| && HeapOK(Views(h))
    ensures KeepsAbove(vs, Views(h), x)
  {
    assert Keys(h0) == Curs(vs)[0 := h0[0].cur];
    h := HeapFixTop(h0);
    SameMembers(h0, h);
    assert Keys(h) == Curs(Views(h));
    MergeReplace(vs, h0[0].v, x);
    UnionSame(Views(h0), Views(h));
  }

  /** The top of the heap has answered false: the code pops it. */
  method TopFailed(h0: seq<Postings>, ghost vs: seq<View>, ghost x: nat) returns (h: seq<Postings>)
    requires h0 != [] && Mirrored(h0) && HeapOK(vs) && |vs| == |h0|
    requires Views(h0) == vs[0 := h0[0].v]
    requires Above(vs[0].reach, x) == {}
    ensures multiset(h) <= multiset(h0) && |h| < |h0| && HeapOK(Views(h))
    ensures KeepsAbove(vs, Views(h), x)
  {
    assert Keys(h0) == Curs(vs)[0 := h0[0].cur];
    h := HeapPop(h0);
    SameMembers(h0[1..], h);
    assert h0 == [h0[0]] + h0[1..];
    assert Keys(h) == Curs(Views(h));
    assert Views(h0[1..]) == vs[1..];
    UnionSame(vs[1..], Views(h));
    MergeDrop(vs, Views(h), x);
  }

  /** The top of the heap has answered: the code fixes the heap or pops it. */
  method TopSettled(h0: seq<Postings>, ok: bool, ghost vs: seq<View>, ghost x: nat) returns (h: seq<Postings>)
    requires h0 != [] && Mirrored(h0) && HeapOK(vs) && |vs| == |h0| && Views(h0) == vs[0 := h0[0].v]
    requires ok ==> h0[0].v.posd && h0[0].v.Ok() && h0[0].v.reach <= vs[0].reach
    requires Above(vs[0].reach, x) == if ok then Above(h0[0].v.reach, x) else {}
    ensures multiset(h) <= multiset(h0) && (if ok then |h| == |h0| else |h| < |h0|)
    ensures HeapOK(Views(h)) && KeepsAbove(vs, Views(h), x)
  {
    if ok {
      h := TopMoved(h0, vs, x);
    } else {
      h := TopFailed(h0, vs, x);
    }
  }

  /** sort.Search over a sorted list with the predicate "at least x". */
  method SearchList(list: seq<nat>, x: nat) returns (i: nat)
    requires Sorted(list)
    ensures i <= |list|
    ensures forall k :: 0 <= k < i ==> list[k] < x
    ensures forall k :: i <= k < |list| ==> x <= list[k]
    ensures i == Skipped(list, x)
  {
    i := 0;
    var j := |list|;
    while i < j
      invariant i <= j <= |list|
      invariant forall k :: 0 <= k < i ==> list[k] < x
      invariant forall k :: j <= k < |list| ==> x <= list[k]
    {
      var m := (i + j) / 2;
      if list[m] >= x {
        j := m;
      } else {
        i := m + 1;
      }
    }
    SkippedIs(list, x, i);
  }
}
