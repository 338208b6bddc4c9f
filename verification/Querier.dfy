// PostingsForMatchers of pkg/inverted/querier.go: from matchers to a tree of iterators.

module Querier {
  import opened IteratorViews
  import opened Iterators
  import opened PostingsOps
  import opened Literals
  import opened MemIndex
  import opened Matchers
  import opened Head

  // ---- the meaning of a query, label pair by label pair

  /** Some matcher on the label rejects the empty value. */
  predicate MustBeSet(e: Engine, ms: seq<Matcher>, name: string) {
    exists k :: 0 <= k < |ms| && ms[k].name == name && !Matches(e, ms[k], "")
  }

  /** The matcher is looked up by the texts of its pattern, which leaves stored empty values out. */
  predicate BySets(m: Matcher) {
    m.mtype == MatchRegexp && ScanAll(m.value).Reading? && NonEmpty(ScanAll(m.value).sets) != []
  }

  /** The values under which an id is listed. */
  function ValuesAt(t: Table, name: string, id: nat): set<string> {
    set v | v in ValuesOf(t, name) && id in Lookup(t, Label(name, v))
  }

  /** What a matcher demands of the values, many or none, that a host has under its label.
      It demands that all values match when it accepts "" and either is negated or no matcher on its label
      rejects "". Otherwise it demands that some value matches. */
  ghost predicate Demand(e: Engine, ms: seq<Matcher>, m: Matcher, vs: set<string>) {
    if Matches(e, m, "") && (IsNot(m) || !MustBeSet(e, ms, m.name)) then
      forall v :: v in vs ==> Matches(e, m, v)
    else
      exists v :: v in vs && Matches(e, m, v) && (v != "" || !BySets(m))
  }

  /** The matcher accepts the missing label, said of its type and value. */
  predicate TakesMissing(e: Engine, m: Matcher) {
    match m.mtype
    case MatchEqual => m.value == ""
    case MatchNotEqual => m.value != ""
    case MatchRegexp => e.accepts(m.value, "")
    case MatchNotRegexp => !e.accepts(m.value, "")
  }

  /** The demands type by type: which ask for some value and which for all, and of what. */
  lemma DemandByType(e: Engine, ms: seq<Matcher>, m: Matcher, vs: set<string>)
    requires m in ms
    ensures var lenient := forall k :: 0 <= k < |ms| && ms[k].name == m.name ==> TakesMissing(e, ms[k]);
            Demand(e, ms, m, vs) <==>
              match m.mtype
              case MatchEqual => if m.value == "" && lenient then forall v :: v in vs ==> v == "" else m.value in vs
              case MatchNotEqual => if m.value != "" then m.value !in vs else exists v :: v in vs && v != ""
              case MatchRegexp =>
                if lenient then forall v :: v in vs ==> e.accepts(m.value, v)
                else exists v :: v in vs && e.accepts(m.value, v) && (v != "" || !BySets(m))
              case MatchNotRegexp =>
                if e.accepts(m.value, "") then exists v :: v in vs && !e.accepts(m.value, v)
                else forall v :: v in vs ==> !e.accepts(m.value, v)
  {
    var k :| 0 <= k < |ms| && ms[k] == m;
    assert MustBeSet(e, ms, m.name) <==> !(forall j :: 0 <= j < |ms| && ms[j].name == m.name ==> TakesMissing(e, ms[j]));
  }

  ghost predicate Selected(t: Table, e: Engine, ms: seq<Matcher>, id: nat) {
    && id in Lookup(t, ALL_POSTINGS_KEY)
    && forall k :: 0 <= k < |ms| ==> Demand(e, ms, ms[k], ValuesAt(t, ms[k].name, id))
  }

  // ---- the iterators of one matcher

  /** The values that postingsForMatcher looks up. */
  function Chosen(t: Table, e: Engine, m: Matcher): set<string> {
    set v | v in ValuesOf(t, m.name) && Matches(e, m, v) && (v != "" || !BySets(m))
  }

  function Rejected(t: Table, e: Engine, m: Matcher): set<string> {
    set v | v in ValuesOf(t, m.name) && !Matches(e, m, v)
  }

  lemma IdsByValue(t: Table, name: string, vs: set<string>, ws: set<string>)
    requires forall v :: v in ValuesOf(t, name) ==> (v in vs <==> v in ws)
    ensures Ids(t, name, vs) == Ids(t, name, ws)
  {
    forall v, id | id in Lookup(t, Label(name, v)) ensures v in ValuesOf(t, name) {
    }
  }

  /** The values, of those given, on which the matcher answers `want`. */
  method Filter(e: Engine, m: Matcher, vals: seq<string>, want: bool) returns (res: seq<string>)
    ensures AsSet(res) == set v | v in vals && Matches(e, m, v) == want
  {
    res := [];
    for k := 0 to |vals|
      invariant forall v :: v in res <==> v in vals[..k] && Matches(e, m, v) == want
    {
      assert vals[..k + 1] == vals[..k] + [vals[k]];
      if Matches(e, m, vals[k]) == want {
        res := res + [vals[k]];
      }
    }
    assert vals[..|vals|] == vals;
  }

  method PostingsForMatcher(ix: HeadIndexReader, e: Engine, m: Matcher) returns (p: Postings)
    requires ix.Valid() && Sane(e) && Constructible(e, m) && m.name != ""
    ensures Free(p) && p.v.Unread() && p.steady && fresh(p.Repr)
    ensures p.v.todo == Ids(ix.postings.m, m.name, Chosen(ix.postings.m, e, m))
  {
    ghost var t := ix.postings.m;
    if m.mtype == MatchEqual {
      p := ix.Postings(m.name, [m.value]);
      IdsByValue(t, m.name, AsSet([m.value]), Chosen(t, e, m));
      return;
    }
    if m.mtype == MatchRegexp {
      var setMatches := FindSetMatches(Wrap(m.value));
      WrapInjective(m.value);
      if |setMatches| > 0 {
        p := ix.Postings(m.name, setMatches);
        forall v ensures v in AsSet(setMatches) <==> Matches(e, m, v) && v != "" {
          SetMatchesMean(e, m.value, v);
        }
        IdsByValue(t, m.name, AsSet(setMatches), Chosen(t, e, m));
        return;
      }
    }
    var vals := ix.LabelValues(m.name);
    var res := Filter(e, m, vals, true);
    assert AsSet(res) == Chosen(t, e, m);
    if |res| == 0 {
      p := new Postings.NewEmpty();
      return;
    }
    p := ix.Postings(m.name, res);
  }

  lemma WrapInjective(v: string)
    ensures forall w :: Wrap(v) == Wrap(w) ==> v == w
  {
    forall w | Wrap(v) == Wrap(w) ensures v == w {
      assert v == Wrap(v)[4..|Wrap(v)| - 2] && w == Wrap(w)[4..|Wrap(w)| - 2];
    }
  }

  method InversePostingsForMatcher(ix: HeadIndexReader, e: Engine, m: Matcher) returns (p: Postings)
    requires ix.Valid() && m.name != ""
    ensures Free(p) && p.v.Unread() && p.steady && fresh(p.Repr)
    ensures p.v.todo == Ids(ix.postings.m, m.name, Rejected(ix.postings.m, e, m))
  {
    var vals := ix.LabelValues(m.name);
    var res := Filter(e, m, vals, false);
    assert AsSet(res) == Rejected(ix.postings.m, e, m);
    p := ix.Postings(m.name, res);
  }

  // ---- the plan: what one matcher contributes

  /** The ids a matcher adds to the intersection (`plus`), or takes away from it in the end. */
  datatype Part = Part(plus: bool, ids: set<nat>)

  function Plan(t: Table, e: Engine, ms: seq<Matcher>, m: Matcher): Part {
    if MustBeSet(e, ms, m.name) then
      if IsNot(m) && Matches(e, m, "") then Part(false, Ids(t, m.name, Chosen(t, e, Inverse(m))))
      else if IsNot(m) then Part(true, Ids(t, m.name, Rejected(t, e, Inverse(m))))
      else Part(true, Ids(t, m.name, Chosen(t, e, m)))
    else
      Part(false, Ids(t, m.name, Rejected(t, e, m)))
  }

  /** Each part of the plan says what its matcher demands. */
  lemma PlanMeans(t: Table, e: Engine, ms: seq<Matcher>, m: Matcher, id: nat)
    requires m in ms
    ensures (id in Plan(t, e, ms, m).ids) == Plan(t, e, ms, m).plus <==> Demand(e, ms, m, ValuesAt(t, m.name, id))
  {
    InverseMatchesAll(e, m);
    assert !Matches(e, m, "") ==> MustBeSet(e, ms, m.name);
    var vs := ValuesAt(t, m.name, id);
    IdsAt(t, m.name, Chosen(t, e, m), id);
    IdsAt(t, m.name, Rejected(t, e, m), id);
    IdsAt(t, m.name, Chosen(t, e, Inverse(m)), id);
    IdsAt(t, m.name, Rejected(t, e, Inverse(m)), id);
  }

  lemma IdsAt(t: Table, name: string, vs: set<string>, id: nat)
    requires vs <= ValuesOf(t, name)
    ensures id in Ids(t, name, vs) <==> exists v :: v in ValuesAt(t, name, id) && v in vs
  {
  }

  lemma InverseMatchesAll(e: Engine, m: Matcher)
    ensures forall s :: Matches(e, Inverse(m), s) == !Matches(e, m, s)
    ensures Inverse(m).name == m.name && IsNot(Inverse(m)) == !IsNot(m) && (IsNot(m) ==> !BySets(m))
  {
  }

  method OnePart(ix: HeadIndexReader, e: Engine, ghost ms: seq<Matcher>, mustBeSet: set<string>, m: Matcher)
    returns (p: Postings, plus: bool)
    requires ix.Valid() && Sane(e) && Constructible(e, m) && m.name != ""
    requires (m.name in mustBeSet) == MustBeSet(e, ms, m.name)
    ensures Free(p) && p.v.Unread() && p.steady && fresh(p.Repr)
    ensures Part(plus, p.v.todo) == Plan(ix.postings.m, e, ms, m)
  {
    InverseMatchesAll(e, m);
    if m.name in mustBeSet {
      var matchesEmpty := Matches(e, m, "");
      var isNot := IsNot(m);
      if isNot && matchesEmpty {
        p := PostingsForMatcher(ix, e, Inverse(m));
        plus := false;
      } else if isNot && !matchesEmpty {
        p := InversePostingsForMatcher(ix, e, Inverse(m));
        plus := true;
      } else {
        p := PostingsForMatcher(ix, e, m);
        plus := true;
      }
    } else {
      p := InversePostingsForMatcher(ix, e, m);
      plus := false;
    }
  }

  /** The ids contributed with the given sign by the first matchers, in their order. */
  function Parts(t: Table, e: Engine, ms: seq<Matcher>, k: nat, plus: bool): seq<set<nat>>
    requires k <= |ms|
  {
    if k == 0 then [] else
      var part := Plan(t, e, ms, ms[k - 1]);
      Parts(t, e, ms, k - 1, plus) + if part.plus == plus then [part.ids] else []
  }

  function Todos(vs: seq<View>): (ts: seq<set<nat>>)
    ensures |ts| == |vs|
  {
    seq(|vs|, i requires 0 <= i < |vs| => vs[i].todo)
  }

  method MustBeSetNames(e: Engine, ms: seq<Matcher>) returns (names: set<string>)
    ensures forall n :: n in names <==> MustBeSet(e, ms, n)
  {
    names := {};
    for k := 0 to |ms|
      invariant forall n :: n in names <==> exists j :: 0 <= j < k && ms[j].name == n && !Matches(e, ms[j], "")
    {
      if !Matches(e, ms[k], "") {
        names := names + {ms[k].name};
      }
    }
  }

  ghost predicate Queryable(e: Engine, ms: seq<Matcher>) {
    Sane(e) && forall k :: 0 <= k < |ms| ==> Constructible(e, ms[k]) && ms[k].name != ""
  }

  /** What the loop over the matchers has built after k of them. */
  ghost predicate Built(t: Table, e: Engine, ms: seq<Matcher>, k: nat, its: seq<Postings>, notIts: seq<Postings>)
    requires k <= |ms|
    reads its, notIts, Footprint(its), Footprint(notIts)
  {
    && Batch(its) && Batch(notIts) && Footprint(its) !! Footprint(notIts)
    && Todos(Views(its)) == Parts(t, e, ms, k, true)
    && Todos(Views(notIts)) == Parts(t, e, ms, k, false)
  }

  /** The loop of PostingsForMatchers over the matchers. */
  method AllParts(ix: HeadIndexReader, e: Engine, ms: seq<Matcher>, ghost t: Table)
    returns (its: seq<Postings>, notIts: seq<Postings>)
    requires ix.Valid() && ix.postings.m == t && Queryable(e, ms)
    ensures Built(t, e, ms, |ms|, its, notIts)
    ensures fresh(Footprint(its)) && fresh(Footprint(notIts))
  {
    its, notIts := [], [];
    var mustBeSet := MustBeSetNames(e, ms);
    for k := 0 to |ms|
      invariant Built(t, e, ms, k, its, notIts)
      invariant fresh(Footprint(its)) && fresh(Footprint(notIts))
    {
      ghost var fs, gs := Footprint(its), Footprint(notIts);
      its, notIts := AddPart(ix, e, ms, mustBeSet, k, its, notIts, t);
      assert Footprint(its) <= fs + (Footprint(its) - fs);
      assert Footprint(notIts) <= gs + (Footprint(notIts) - gs);
    }
  }

  method AddPart(ix: HeadIndexReader, e: Engine, ms: seq<Matcher>, mustBeSet: set<string>, k: nat,
                 its: seq<Postings>, notIts: seq<Postings>, ghost t: Table)
    returns (its': seq<Postings>, notIts': seq<Postings>)
    requires ix.Valid() && ix.postings.m == t && Queryable(e, ms) && k < |ms|
    requires forall n :: n in mustBeSet <==> MustBeSet(e, ms, n)
    requires Built(t, e, ms, k, its, notIts)
    ensures Built(t, e, ms, k + 1, its', notIts')
    ensures fresh(Footprint(its') - Footprint(its)) && fresh(Footprint(notIts') - Footprint(notIts))
  {
    var p, plus := OnePart(ix, e, ms, mustBeSet, ms[k]);
    its', notIts' := its, notIts;
    if plus {
      its' := Snoc(its, p);
    } else {
      notIts' := Snoc(notIts, p);
    }
  }

  method Snoc(ps: seq<Postings>, p: Postings) returns (qs: seq<Postings>)
    requires Batch(ps) && Free(p) && p.v.Unread() && p.steady && Footprint(ps) !! p.Repr
    ensures Batch(qs) && Footprint(qs) == Footprint(ps) + p.Repr
    ensures Todos(Views(qs)) == Todos(Views(ps)) + [p.v.todo]
  {
    FreeSnoc(ps, p);
    qs := ps + [p];
  }

  /** The final loop: every drop list is taken away. */
  method Subtract(full: Postings, drops: seq<Postings>, ghost own: set<Postings>) returns (p: Postings)
    requires Batch(drops) && Free(full) && full.v.Unread() && full.tame
    requires forall j :: 0 <= j < |drops| ==> full.Repr !! drops[j].Repr && drops[j].Repr <= own
    requires full.Repr <= own
    ensures Free(p) && p.v.Unread() && fresh(p.Repr - own)
    ensures p.v.todo == full.v.todo - UnionTodo(Views(drops))
  {
    p := full;
    ghost var ds := Views(drops);
    for k := 0 to |drops|
      invariant Batch(drops) && Free(p) && p.v.Unread() && p.tame && fresh(p.Repr - own) && Views(drops) == ds
      invariant forall j :: k <= j < |drops| ==> p.Repr !! drops[j].Repr
      invariant p.v.todo == full.v.todo - UnionTodo(ds[..k])
    {
      UnionTodoSnoc(ds, k);
      p := SubtractOne(p, drops, k);
    }
    assert ds[..|drops|] == ds;
  }

  lemma UnionTodoSnoc(ds: seq<View>, k: nat)
    requires k < |ds|
    ensures UnionTodo(ds[..k + 1]) == UnionTodo(ds[..k]) + ds[k].todo
  {
    assert ds[..k + 1] == ds[..k] + [ds[k]];
    forall y | y in ds[k].todo ensures y in UnionTodo(ds[..k + 1]) {
      assert ds[k] in ds[..k + 1];
    }
    forall y | y in UnionTodo(ds[..k]) ensures y in UnionTodo(ds[..k + 1]) {
      var x :| x in ds[..k] && y in x.todo;
      assert x in ds[..k + 1];
    }
  }

  method SubtractOne(full: Postings, drops: seq<Postings>, k: nat) returns (p: Postings)
    requires Batch(drops) && Free(full) && full.v.Unread() && full.tame && k < |drops|
    requires forall j :: k <= j < |drops| ==> full.Repr !! drops[j].Repr
    ensures Free(p) && p.v.Unread() && p.tame && fresh(p.Repr - full.Repr - drops[k].Repr)
    ensures p.v.todo == full.v.todo - drops[k].v.todo
    ensures forall j :: k < j < |drops| ==> p.Repr !! drops[j].Repr
  {
    ghost var both := [full, drops[k]];
    assert both[0] == full && both[1] == drops[k];
    p := Without(full, drops[k]);
  }

  /** The ids of the answer. */
  ghost function Answer(t: Table, e: Engine, ms: seq<Matcher>): set<nat> {
    set id | id in Elems(Lookup(t, ALL_POSTINGS_KEY)) && Selected(t, e, ms, id)
  }

  function Difference(vs: seq<View>, ws: seq<View>): set<nat> {
    (if vs == [] then {} else MeetTodo(vs)) - UnionTodo(ws)
  }

  /** Intersects, then takes the drop lists away. */
  method Combine(its: seq<Postings>, notIts: seq<Postings>) returns (p: Postings)
    requires Batch(its) && Batch(notIts) && Footprint(its) !! Footprint(notIts)
    ensures Free(p) && p.v.Unread() && fresh(p.Repr - Footprint(its) - Footprint(notIts))
    ensures p.v.todo == Difference(Views(its), Views(notIts))
  {
    var it := PostingsOps.Intersect(its);
    InFootprint(notIts);
    p := Subtract(it, notIts, it.Repr + Footprint(notIts));
  }

  /** If there is nothing to subtract from, all ids are. */
  method OrAll(ix: HeadIndexReader, its: seq<Postings>, notIts: seq<Postings>) returns (its': seq<Postings>)
    requires ix.Valid() && Batch(its) && Batch(notIts) && Footprint(its) !! Footprint(notIts)
    ensures Batch(its') && Footprint(its') !! Footprint(notIts) && fresh(Footprint(its') - Footprint(its))
    ensures Todos(Views(its')) == WithAll(ix.postings.m, Todos(Views(its)), Todos(Views(notIts)))
  {
    its' := its;
    if |its| == 0 && |notIts| != 0 {
      var all := ix.Postings("", [""]);
      AllIds(ix.postings.m);
      its' := Snoc(its, all);
    }
  }

  method PostingsForMatchers(ix: HeadIndexReader, e: Engine, ms: seq<Matcher>) returns (p: Postings)
    requires ix.Valid() && Queryable(e, ms)
    ensures Free(p) && p.v.Unread() && fresh(p.Repr)
    ensures p.v.todo == if ms == [] then {} else Answer(ix.postings.m, e, ms)
  {
    ghost var t := ix.postings.m;
    IndexHeldByAll(ix);
    var its, notIts := Gather(ix, e, ms, t);
    ghost var vs, ws := Views(its), Views(notIts);
    p := Combine(its, notIts);
    AnswerOfParts(t, e, ms, vs, ws);
  }

  /** Everything that is added, all ids when that is nothing, and everything that is taken away. */
  method Gather(ix: HeadIndexReader, e: Engine, ms: seq<Matcher>, ghost t: Table) returns (its: seq<Postings>, notIts: seq<Postings>)
    requires ix.Valid() && ix.postings.m == t && Queryable(e, ms)
    ensures Batch(its) && Batch(notIts) && Footprint(its) !! Footprint(notIts)
    ensures fresh(Footprint(its)) && fresh(Footprint(notIts))
    ensures Todos(Views(its)) == WithAll(t, Parts(t, e, ms, |ms|, true), Parts(t, e, ms, |ms|, false))
    ensures Todos(Views(notIts)) == Parts(t, e, ms, |ms|, false)
  {
    its, notIts := AllParts(ix, e, ms, t);
    its := OrAll(ix, its, notIts);
  }

  lemma IndexHeldByAll(ix: HeadIndexReader)
    requires ix.Valid()
    ensures HeldByAll(ix.postings.m)
  {
    forall l: Label ensures Elems(Lookup(ix.postings.m, l)) <= Elems(Lookup(ix.postings.m, ALL_POSTINGS_KEY)) {
      ix.postings.HoldsAll(l);
    }
  }

  lemma AllIds(t: Table)
    ensures Ids(t, "", AsSet([""])) == Elems(Lookup(t, ALL_POSTINGS_KEY))
  {
    assert "" in AsSet([""]);
  }

  lemma {:induction false} PartsCount(t: Table, e: Engine, ms: seq<Matcher>, k: nat)
    requires k <= |ms|
    ensures |Parts(t, e, ms, k, true)| + |Parts(t, e, ms, k, false)| == k
  {
    if k > 0 {
      PartsCount(t, e, ms, k - 1);
    }
  }

  /** The id is in every set added and in none taken away. */
  ghost predicate Passes(plus: seq<set<nat>>, minus: seq<set<nat>>, id: nat) {
    (forall s :: s in plus ==> id in s) && (forall s :: s in minus ==> id !in s)
  }

  lemma PassesMore(t: Table, e: Engine, ms: seq<Matcher>, k: nat, id: nat)
    requires k < |ms|
    ensures var part := Plan(t, e, ms, ms[k]);
            Passes(Parts(t, e, ms, k + 1, true), Parts(t, e, ms, k + 1, false), id) <==>
            Passes(Parts(t, e, ms, k, true), Parts(t, e, ms, k, false), id) && (id in part.ids) == part.plus
  {
    var part := Plan(t, e, ms, ms[k]);
    var plus, minus := Parts(t, e, ms, k, true), Parts(t, e, ms, k, false);
    assert forall s :: s in plus + [part.ids] <==> s in plus || s == part.ids;
    assert forall s :: s in minus + [part.ids] <==> s in minus || s == part.ids;
    assert plus + [] == plus && minus + [] == minus;
  }

  /** The id meets the demands of the first k matchers. */
  ghost predicate MeetsFirst(t: Table, e: Engine, ms: seq<Matcher>, k: nat, id: nat)
    requires k <= |ms|
  {
    k == 0 || (MeetsFirst(t, e, ms, k - 1, id) && Demand(e, ms, ms[k - 1], ValuesAt(t, ms[k - 1].name, id)))
  }

  lemma {:induction false} MeetsAll(t: Table, e: Engine, ms: seq<Matcher>, k: nat, id: nat)
    requires k <= |ms|
    ensures MeetsFirst(t, e, ms, k, id) <==> forall j :: 0 <= j < k ==> Demand(e, ms, ms[j], ValuesAt(t, ms[j].name, id))
  {
    if k > 0 {
      MeetsAll(t, e, ms, k - 1, id);
    }
  }

  /** An id passes the parts of the first matchers iff it meets their demands. */
  lemma {:induction false} PartsMean(t: Table, e: Engine, ms: seq<Matcher>, k: nat, id: nat)
    requires k <= |ms|
    ensures Passes(Parts(t, e, ms, k, true), Parts(t, e, ms, k, false), id) <==> MeetsFirst(t, e, ms, k, id)
  {
    if k > 0 {
      PartsMean(t, e, ms, k - 1, id);
      PassesMore(t, e, ms, k - 1, id);
      PlanMeans(t, e, ms, ms[k - 1], id);
    }
  }

  ghost predicate HeldByAll(t: Table) {
    forall l :: Elems(Lookup(t, l)) <= Elems(Lookup(t, ALL_POSTINGS_KEY))
  }

  lemma {:induction false} PlusHeld(t: Table, e: Engine, ms: seq<Matcher>, k: nat, s: set<nat>)
    requires k <= |ms| && HeldByAll(t) && s in Parts(t, e, ms, k, true)
    ensures s <= Elems(Lookup(t, ALL_POSTINGS_KEY))
  {
    if s in Parts(t, e, ms, k - 1, true) {
      PlusHeld(t, e, ms, k - 1, s);
    }
  }

  lemma InMeet(vs: seq<View>, id: nat)
    requires |vs| > 0
    ensures id in MeetTodo(vs) <==> forall s :: s in Todos(vs) ==> id in s
  {
    assert Todos(vs)[0] == vs[0].todo;
    if id in MeetTodo(vs) {
      forall s | s in Todos(vs) ensures id in s {
        var i :| 0 <= i < |vs| && Todos(vs)[i] == s;
      }
    }
    if forall s :: s in Todos(vs) ==> id in s {
      forall i | 0 <= i < |vs| ensures id in vs[i].todo {
        assert Todos(vs)[i] == vs[i].todo;
      }
    }
  }

  lemma InUnion(vs: seq<View>, id: nat)
    ensures id !in UnionTodo(vs) <==> forall s :: s in Todos(vs) ==> id !in s
  {
    if id in UnionTodo(vs) {
      var v :| v in vs && id in v.todo;
      var i :| 0 <= i < |vs| && vs[i] == v;
      assert Todos(vs)[i] == v.todo;
    }
    if s :| s in Todos(vs) && id in s {
      var i :| 0 <= i < |vs| && Todos(vs)[i] == s;
      assert vs[i] in vs;
    }
  }

  function WithAll(t: Table, plus: seq<set<nat>>, minus: seq<set<nat>>): seq<set<nat>> {
    if plus == [] && minus != [] then [Elems(Lookup(t, ALL_POSTINGS_KEY))] else plus
  }

  /** Intersecting the parts added, or all ids when there is none, and subtracting the others gives the answer. */
  lemma AnswerOfParts(t: Table, e: Engine, ms: seq<Matcher>, vs: seq<View>, ws: seq<View>)
    requires HeldByAll(t)
    requires Todos(vs) == WithAll(t, Parts(t, e, ms, |ms|, true), Parts(t, e, ms, |ms|, false))
    requires Todos(ws) == Parts(t, e, ms, |ms|, false)
    ensures Difference(vs, ws) == if ms == [] then {} else Answer(t, e, ms)
  {
    PartsCount(t, e, ms, |ms|);
    if ms != [] {
      assert |Todos(vs)| > 0;
      forall id
        ensures id in MeetTodo(vs) - UnionTodo(ws) <==> id in Answer(t, e, ms)
      {
        AnswerOfId(t, e, ms, vs, ws, id);
      }
    }
  }

  lemma AnswerOfId(t: Table, e: Engine, ms: seq<Matcher>, vs: seq<View>, ws: seq<View>, id: nat)
    requires HeldByAll(t) && ms != [] && |vs| > 0
    requires Todos(vs) == WithAll(t, Parts(t, e, ms, |ms|, true), Parts(t, e, ms, |ms|, false))
    requires Todos(ws) == Parts(t, e, ms, |ms|, false)
    ensures id in MeetTodo(vs) - UnionTodo(ws) <==> id in Answer(t, e, ms)
  {
    var plus := Parts(t, e, ms, |ms|, true);
    InMeet(vs, id);
    InUnion(ws, id);
    PartsMean(t, e, ms, |ms|, id);
    MeetsAll(t, e, ms, |ms|, id);
    if plus == [] {
      assert Todos(vs)[0] == Elems(Lookup(t, ALL_POSTINGS_KEY));
    } else {
      PlusHeld(t, e, ms, |ms|, plus[0]);
      assert plus[0] in plus;
    }
  }

  // ---- hosts with at most one value per label

  /** At most one label for each name. */
  ghost predicate OnePerName(ls: seq<Label>) {
    forall i, j :: 0 <= i < j < |ls| ==> ls[i].name != ls[j].name
  }

  lemma {:induction false} GetFinds(ls: seq<Label>, name: string)
    requires OnePerName(ls)
    ensures NamedValues(ls, name) == {Get(ls, name)} || (NamedValues(ls, name) == {} && Get(ls, name) == "")
  {
    if ls != [] {
      assert ls == [ls[0]] + ls[1..];
      if ls[0].name == name {
        assert forall l :: l in ls[1..] ==> l.name != name;
        assert ls[0] in ls;
      } else {
        GetFinds(ls[1..], name);
        assert forall l :: l in ls && l.name == name <==> l in ls[1..] && l.name == name;
      }
    }
  }

  /** With one value per label, stored empty values included, the demands together say what
      Selector.Matches says of the label set. */
  lemma SingleValued(e: Engine, ms: seq<Matcher>, ls: seq<Label>)
    requires OnePerName(ls)
    ensures (forall k :: 0 <= k < |ms| ==> Demand(e, ms, ms[k], NamedValues(ls, ms[k].name))) <==> Selects(e, ms, ls)
  {
    forall k | 0 <= k < |ms|
      ensures NamedValues(ls, ms[k].name) == {Get(ls, ms[k].name)} ||
              (NamedValues(ls, ms[k].name) == {} && Get(ls, ms[k].name) == "")
    {
      GetFinds(ls, ms[k].name);
    }
  }

  /** On an index of such hosts a query with at least one matcher selects what Selector.Matches selects. */
  lemma AnswerIsSelector(t: Table, e: Engine, ms: seq<Matcher>, labels: map<nat, seq<Label>>)
    requires forall k :: 0 <= k < |ms| ==> ms[k].name != ""
    requires forall id :: id in Lookup(t, ALL_POSTINGS_KEY) ==> id in labels && OnePerName(labels[id])
    requires forall id, n :: id in Lookup(t, ALL_POSTINGS_KEY) && n != "" ==> ValuesAt(t, n, id) == NamedValues(labels[id], n)
    ensures Answer(t, e, ms) == set id | id in Elems(Lookup(t, ALL_POSTINGS_KEY)) && Selects(e, ms, labels[id])
  {
    forall id | id in Lookup(t, ALL_POSTINGS_KEY)
      ensures Selected(t, e, ms, id) <==> Selects(e, ms, labels[id])
    {
      SingleValued(e, ms, labels[id]);
    }
  }

  /** The label sets that a run of adds and deletes leaves standing, one value at most under each name. */
  ghost predicate LabelsOfRun(log: seq<Op>, labels: map<nat, seq<Label>>) {
    && (forall id :: Standing(log, ALL_POSTINGS_KEY, id) > 0 <==> id in labels)
    && (forall l: Label, id :: l.name != "" ==> (Standing(log, l, id) > 0 <==> id in labels && l in labels[id]))
    && (forall id :: id in labels ==> OnePerName(labels[id]))
  }

  function Selection(e: Engine, ms: seq<Matcher>, labels: map<nat, seq<Label>>): set<nat> {
    set id | id in labels && Selects(e, ms, labels[id])
  }

  /** After any run of adds and deletes the answer is what Selector.Matches selects of the labels left standing. */
  lemma AnswerOfRun(t: Table, log: seq<Op>, e: Engine, ms: seq<Matcher>, labels: map<nat, seq<Label>>)
    requires Records(t, log) && LabelsOfRun(log, labels)
    requires forall k :: 0 <= k < |ms| ==> ms[k].name != ""
    ensures Answer(t, e, ms) == Selection(e, ms, labels)
  {
    forall l: Label, id ensures id in Lookup(t, l) <==> Standing(log, l, id) > 0 {
      assert Count(t, l, id) == Standing(log, l, id);
    }
    forall id, n | id in labels && n != "" ensures ValuesAt(t, n, id) == NamedValues(labels[id], n) {
      forall v ensures v in ValuesAt(t, n, id) <==> v in NamedValues(labels[id], n) {
        var l := Label(n, v);
        assert id in Lookup(t, l) <==> l in labels[id];
      }
    }
    AnswerIsSelector(t, e, ms, labels);
  }

  /** A query without matchers, which yields nothing, agrees with Selector.Matches on an empty index only. */
  lemma EmptyQuery(t: Table, log: seq<Op>, e: Engine, ms: seq<Matcher>, labels: map<nat, seq<Label>>)
    requires Records(t, log) && LabelsOfRun(log, labels)
    requires forall k :: 0 <= k < |ms| ==> ms[k].name != ""
    ensures (if ms == [] then {} else Answer(t, e, ms)) == Selection(e, ms, labels) <==> ms != [] || labels == map[]
  {
    AnswerOfRun(t, log, e, ms, labels);
    if ms == [] && labels != map[] {
      var id :| id in labels;
      assert id in Selection(e, ms, labels);
    }
  }

  /** GetMatchIdsByIndex: the answer, drained. With at most one value per label it is the set that
      Selector.Matches selects, but for a query without matchers on an index that holds something. */
  method GetMatchIds(ix: HeadIndexReader, e: Engine, ms: seq<Matcher>) returns (ids: seq<nat>)
    requires ix.Valid() && Queryable(e, ms)
    ensures Increasing(ids)
    ensures Elems(ids) == if ms == [] then {} else Answer(ix.postings.m, e, ms)
    ensures forall labels :: LabelsOfRun(ix.postings.log, labels) ==>
              (Elems(ids) == Selection(e, ms, labels) <==> ms != [] || labels == map[])
  {
    ghost var t, log := ix.postings.m, ix.postings.log;
    forall labels | LabelsOfRun(log, labels)
      ensures (if ms == [] then {} else Answer(t, e, ms)) == Selection(e, ms, labels) <==> ms != [] || labels == map[]
    {
      EmptyQuery(t, log, e, ms, labels);
    }
    var p := PostingsForMatchers(ix, e, ms);
    ids := ExpandPostings(p);
  }

  /** Several values per label cannot be read as one label set: a host under both "a" and "b" is selected by
      {l="a", l="b"}, which no label set satisfies. */
  lemma SeveralValuesDiffer(e: Engine, l: string, a: string, b: string)
    requires a != "" && b != "" && a != b
    ensures var ms := [Matcher(MatchEqual, l, a), Matcher(MatchEqual, l, b)];
            (forall k :: 0 <= k < |ms| ==> Demand(e, ms, ms[k], {a, b})) && forall ls :: !Selects(e, ms, ls)
  {
    var ms := [Matcher(MatchEqual, l, a), Matcher(MatchEqual, l, b)];
    forall ls ensures !Selects(e, ms, ls) {
      assert ms[0].name == ms[1].name;
    }
  }
}
