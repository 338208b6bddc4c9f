// The bounded top-k of pkg/inverted/index/postingsstats.go, and the label statistics built on it.

module TopCounts {
  import opened MemIndex

  const MAX_UINT64: nat := 0xFFFF_FFFF_FFFF_FFFF

  datatype Stat = Stat(name: string, count: nat)

  ghost predicate Descending(s: seq<Stat>) {
    forall i, j :: 0 <= i < j < |s| ==> s[i].count >= s[j].count
  }

  /** Everything dropped counts no more than anything kept. */
  ghost predicate Dominates(kept: multiset<Stat>, dropped: multiset<Stat>) {
    forall d, k :: d in dropped && k in kept ==> d.count <= k.count
  }

  ghost predicate IsMin(items: seq<Stat>, value: nat, at: nat) {
    && at < |items| && items[at].count == value
    && forall k :: k in multiset(items) ==> value <= k.count
  }

  /** What is pushed is kept or dropped, and the largest counts are kept. */
  ghost predicate TopOf(items: seq<Stat>, dropped: multiset<Stat>, pushed: multiset<Stat>, max: nat) {
    && multiset(items) + dropped == pushed && Dominates(multiset(items), dropped)
    && |items| == if |pushed| < max then |pushed| else max
  }

  /** minIndex and minValue locate a minimum. */
  ghost predicate Located(items: seq<Stat>, minValue: nat, minIndex: nat) {
    && minValue <= MAX_UINT64
    && if items == [] then minValue == MAX_UINT64 && minIndex == 0 else IsMin(items, minValue, minIndex)
  }

  lemma TopWithRoom(items: seq<Stat>, dropped: multiset<Stat>, pushed: multiset<Stat>, max: nat, item: Stat)
    requires TopOf(items, dropped, pushed, max) && |items| < max
    ensures TopOf(items + [item], dropped, pushed + multiset{item}, max)
  {
    assert |pushed| == |multiset(items)| + |dropped|;
    assert |dropped| == 0;
    assert dropped == multiset{};
    assert multiset(items + [item]) == multiset(items) + multiset{item};
  }

  lemma LocatedWithRoom(items: seq<Stat>, minValue: nat, minIndex: nat, item: Stat)
    requires Located(items, minValue, minIndex) && item.count <= MAX_UINT64
    ensures if item.count < minValue then Located(items + [item], item.count, |items|)
            else Located(items + [item], minValue, minIndex)
  {
    assert multiset(items + [item]) == multiset(items) + multiset{item};
    if items == [] {
      assert multiset(items) == multiset{};
    }
  }

  /** With no room left the item goes, or the minimum goes in its favour. */
  lemma TopWithoutRoom(items: seq<Stat>, dropped: multiset<Stat>, pushed: multiset<Stat>, max: nat, at: nat, item: Stat)
    requires TopOf(items, dropped, pushed, max) && |items| == max && at < |items| && IsMin(items, items[at].count, at)
    ensures if item.count < items[at].count then TopOf(items, dropped + multiset{item}, pushed + multiset{item}, max)
            else TopOf(items[at := item], dropped + multiset{items[at]}, pushed + multiset{item}, max)
  {
    assert items[at] in multiset(items);
    assert multiset(items[at := item]) == multiset(items) - multiset{items[at]} + multiset{item};
  }

  lemma DescendingWith(t: seq<Stat>, i: nat, item: Stat)
    requires Descending(t) && i <= |t|
    requires (forall j :: 0 <= j < i ==> t[j].count >= item.count) && (forall j :: i <= j < |t| ==> item.count >= t[j].count)
    ensures Descending(t[..i] + [item] + t[i..])
  {
    var u := t[..i] + [item] + t[i..];
    assert forall j :: 0 <= j < i ==> u[j] == t[j];
    assert forall j :: i < j < |u| ==> u[j] == t[j - 1];
  }

  lemma BagWith(t: seq<Stat>, i: nat, item: Stat)
    requires i <= |t|
    ensures multiset(t[..i] + [item] + t[i..]) == multiset(t) + multiset{item}
  {
    assert t == t[..i] + t[i..];
  }

  method InsertDescending(t: seq<Stat>, item: Stat) returns (u: seq<Stat>)
    requires Descending(t)
    ensures Descending(u) && multiset(u) == multiset(t) + multiset{item} && |u| == |t| + 1
  {
    var i := |t|;
    while i > 0 && t[i - 1].count < item.count
      invariant 0 <= i <= |t| && forall j :: i <= j < |t| ==> t[j].count < item.count
    {
      i := i - 1;
    }
    assert forall j :: 0 <= j < i ==> t[j].count >= item.count;
    DescendingWith(t, i, item);
    BagWith(t, i, item);
    u := t[..i] + [item] + t[i..];
  }

  /** sort.Slice by descending count. */
  method SortDescending(s: seq<Stat>) returns (t: seq<Stat>)
    ensures Descending(t) && multiset(t) == multiset(s) && |t| == |s|
  {
    t := [];
    for k := 0 to |s|
      invariant Descending(t) && multiset(t) == multiset(s[..k]) && |t| == k
    {
      assert s[..k + 1] == s[..k] + [s[k]];
      t := InsertDescending(t, s[k]);
    }
    assert s[..|s|] == s;
  }

  class MaxHeap {
    var maxLength: nat
    var minValue: nat
    var minIndex: nat
    var items: seq<Stat>
    ghost var pushed: multiset<Stat>
    ghost var dropped: multiset<Stat>

    constructor (length: nat)
      requires length > 0
      ensures Valid() && maxLength == length && pushed == multiset{}
    {
      maxLength, minValue, minIndex, items := length, MAX_UINT64, 0, [];
      pushed, dropped := multiset{}, multiset{};
    }

    ghost predicate Valid()
      reads this
    {
      maxLength > 0 && TopOf(items, dropped, pushed, maxLength) && Located(items, minValue, minIndex)
    }

    method Push(item: Stat)
      requires Valid() && item.count <= MAX_UINT64
      modifies this
      ensures Valid() && pushed == old(pushed) + multiset{item} && maxLength == old(maxLength)
    {
      if |items| < maxLength {
        Append(item);
      } else if item.count < minValue {
        TopWithoutRoom(items, dropped, pushed, maxLength, minIndex, item);
        dropped := dropped + multiset{item};
        pushed := pushed + multiset{item};
      } else {
        Replace(item);
      }
    }

    /** There is room. */
    method Append(item: Stat)
      requires Valid() && |items| < maxLength && item.count <= MAX_UINT64
      modifies this
      ensures Valid() && pushed == old(pushed) + multiset{item} && maxLength == old(maxLength)
    {
      var grown := items + [item];
      ghost var all := pushed + multiset{item};
      TopWithRoom(items, dropped, pushed, maxLength, item);
      LocatedWithRoom(items, minValue, minIndex, item);
      if item.count < minValue {
        minValue, minIndex := item.count, |items|;
      }
      items, pushed := grown, all;
    }

    /** The item takes the place of the minimum. */
    method Replace(item: Stat)
      requires Valid() && |items| == maxLength && minValue <= item.count <= MAX_UINT64
      modifies this
      ensures Valid() && pushed == old(pushed) + multiset{item} && maxLength == old(maxLength)
    {
      TopWithoutRoom(items, dropped, pushed, maxLength, minIndex, item);
      dropped := dropped + multiset{items[minIndex]};
      pushed := pushed + multiset{item};
      items := items[minIndex := item];
      minValue := item.count;
      FindMin();
    }

    /** The loop of push that looks for the new minimum. */
    method FindMin()
      requires minIndex < |items| && items[minIndex].count == minValue
      modifies this`minValue, this`minIndex
      ensures IsMin(items, minValue, minIndex) && minValue <= old(minValue)
    {
      for i := 0 to |items|
        invariant minIndex < |items| && items[minIndex].count == minValue <= old(minValue)
        invariant forall j :: 0 <= j < i ==> minValue <= items[j].count
      {
        if items[i].count < minValue {
          minValue := items[i].count;
          minIndex := i;
        }
      }
      forall k | k in multiset(items) ensures minValue <= k.count {
        assert k in items;
      }
    }

    /** The sorted items; the place of the minimum is not kept up to date. */
    method Get() returns (res: seq<Stat>)
      requires Valid()
      modifies this`items
      ensures res == items && TopOf(items, dropped, pushed, maxLength) && Descending(res)
    {
      items := SortDescending(items);
      res := items;
    }
  }

  // ---- the statistics over the values of a label ----

  function Hits(list: seq<nat>, ids: set<nat>): nat {
    if list == [] then 0 else Hits(list[..|list| - 1], ids) + if list[|list| - 1] in ids then 1 else 0
  }

  /** The places in the list that hold one of the ids. */
  function Places(list: seq<nat>, ids: set<nat>): set<nat> {
    set i | 0 <= i < |list| && list[i] in ids
  }

  /** The hits are counted one by one. */
  lemma {:induction false} HitsCount(list: seq<nat>, ids: set<nat>)
    ensures Hits(list, ids) == |Places(list, ids)|
  {
    if list != [] {
      var n := |list| - 1;
      HitsCount(list[..n], ids);
      assert Places(list, ids) == Places(list[..n], ids) + if list[n] in ids then {n} else {};
    }
  }

  /** Every value with every place of its list that holds one of the ids. */
  function Matching(lists: map<string, seq<nat>>, ids: set<nat>): set<(string, nat)> {
    set v, i | v in lists && i in Places(lists[v], ids) :: (v, i)
  }

  function Paired(v: string, s: set<nat>): set<(string, nat)> {
    set i | i in s :: (v, i)
  }

  lemma {:induction false} PairedCount(v: string, s: set<nat>)
    ensures |Paired(v, s)| == |s|
    decreases |s|
  {
    if i :| i in s {
      PairedCount(v, s - {i});
      assert Paired(v, s) == Paired(v, s - {i}) + {(v, i)} && (v, i) !in Paired(v, s - {i});
    } else {
      assert Paired(v, s) == {};
    }
  }

  lemma MatchingWithout(lists: map<string, seq<nat>>, ids: set<nat>, v: string)
    requires v in lists
    ensures |Matching(lists, ids)| == |Places(lists[v], ids)| + |Matching(lists - {v}, ids)|
  {
    var rest, own := Matching(lists - {v}, ids), Paired(v, Places(lists[v], ids));
    assert Matching(lists, ids) == rest + own && rest !! own;
    PairedCount(v, Places(lists[v], ids));
  }

  lemma HitsWithout(lists: map<string, seq<nat>>, ids: set<nat>, v: string)
    requires v in lists
    ensures Sum(HitsOf(lists, ids)) == |Places(lists[v], ids)| + Sum(HitsOf(lists - {v}, ids))
  {
    SumWithout(HitsOf(lists, ids), v);
    assert HitsOf(lists, ids) - {v} == HitsOf(lists - {v}, ids);
    HitsCount(lists[v], ids);
  }

  /** The counts add up to the number of matching places. */
  lemma {:induction false} SumMatching(lists: map<string, seq<nat>>, ids: set<nat>)
    ensures Sum(HitsOf(lists, ids)) == |Matching(lists, ids)|
    decreases |lists|
  {
    if v :| v in lists {
      HitsWithout(lists, ids, v);
      MatchingWithout(lists, ids, v);
      SumMatching(lists - {v}, ids);
    } else {
      assert HitsOf(lists, ids) == map[];
      assert Matching(lists, ids) == {};
    }
  }

  lemma {:induction false} HitsWithin(list: seq<nat>, ids: set<nat>)
    ensures Hits(list, ids) <= |list|
  {
    if list != [] {
      HitsWithin(list[..|list| - 1], ids);
    }
  }

  function HitsOf(lists: map<string, seq<nat>>, ids: set<nat>): map<string, nat> {
    map v | v in lists :: Hits(lists[v], ids)
  }

  function LengthsOf(lists: map<string, seq<nat>>): map<string, nat> {
    map v | v in lists :: |lists[v]|
  }

  function Nonzero(counts: map<string, nat>): map<string, nat> {
    map v | v in counts && counts[v] > 0 :: counts[v]
  }

  ghost function Sum(counts: map<string, nat>): nat {
    if counts == map[] then 0 else
      var v :| v in counts;
      counts[v] + Sum(counts - {v})
  }

  function SumOf(s: seq<Stat>): nat {
    if s == [] then 0 else SumOf(s[..|s| - 1]) + s[|s| - 1].count
  }

  lemma {:induction false} SumWithout(counts: map<string, nat>, v: string)
    requires v in counts
    ensures Sum(counts) == counts[v] + Sum(counts - {v})
    decreases |counts|
  {
    var w :| w in counts && Sum(counts) == counts[w] + Sum(counts - {w});
    if v != w {
      SumWithout(counts - {w}, v);
      SumWithout(counts - {v}, w);
      assert counts - {w} - {v} == counts - {v} - {w};
    }
  }

  lemma NonzeroWithout(counts: map<string, nat>, v: string)
    requires v in counts
    ensures Nonzero(counts) - {v} == Nonzero(counts - {v})
    ensures counts[v] == 0 ==> Nonzero(counts) == Nonzero(counts - {v})
  {
  }

  lemma {:induction false} SumNonzero(counts: map<string, nat>)
    ensures Sum(Nonzero(counts)) == Sum(counts)
    decreases |counts|
  {
    if counts == map[] {
      assert Nonzero(counts) == map[];
    } else {
      var v :| v in counts;
      SumWithout(counts, v);
      SumNonzero(counts - {v});
      NonzeroWithout(counts, v);
      if counts[v] > 0 {
        SumWithout(Nonzero(counts), v);
      }
    }
  }

  /** The bag holds each entry of the map once and nothing else. */
  ghost predicate Tally(bag: multiset<Stat>, counts: map<string, nat>) {
    forall s :: bag[s] == if s.name in counts && counts[s.name] == s.count then 1 else 0
  }

  lemma TallyMore(bag: multiset<Stat>, counts: map<string, nat>, v: string, n: nat)
    requires Tally(bag, counts) && v !in counts
    ensures Tally(bag + multiset{Stat(v, n)}, counts[v := n])
  {
  }

  /** The entries with the largest counts, largest first. */
  ghost predicate TopList(res: seq<Stat>, counts: map<string, nat>, max: nat) {
    && Descending(res) && |res| == (if |counts| < max then |counts| else max)
    && (forall i, j :: 0 <= i < j < |res| ==> res[i].name != res[j].name)
    && (forall i :: 0 <= i < |res| ==> res[i].name in counts && counts[res[i].name] == res[i].count)
    && (forall v, i :: v in counts && 0 <= i < |res| && Stat(v, counts[v]) !in res ==> counts[v] <= res[i].count)
  }

  lemma TallyEntry(bag: multiset<Stat>, counts: map<string, nat>, s: Stat)
    requires Tally(bag, counts) && s in bag
    ensures s.name in counts && counts[s.name] == s.count && bag[s] == 1
  {
  }

  lemma TwiceIn(s: seq<Stat>, i: nat, j: nat)
    requires i < j < |s| && s[i] == s[j]
    ensures multiset(s)[s[i]] >= 2
  {
    assert s == s[..j] + [s[j]] + s[j + 1..];
    assert s[..j][i] == s[i];
  }

  lemma TallyDistinct(res: seq<Stat>, bag: multiset<Stat>, counts: map<string, nat>)
    requires multiset(res) <= bag && Tally(bag, counts)
    ensures forall i :: 0 <= i < |res| ==> res[i].name in counts && counts[res[i].name] == res[i].count
    ensures forall i, j :: 0 <= i < j < |res| ==> res[i].name != res[j].name
  {
    forall i | 0 <= i < |res| ensures res[i].name in counts && counts[res[i].name] == res[i].count {
      assert res[i] in multiset(res);
      TallyEntry(bag, counts, res[i]);
    }
    forall i, j | 0 <= i < j < |res| ensures res[i].name != res[j].name {
      if res[i].name == res[j].name {
        TallyEntry(bag, counts, res[j]);
        TwiceIn(res, i, j);
      }
    }
  }

  lemma TallyRest(res: seq<Stat>, dropped: multiset<Stat>, pushed: multiset<Stat>, counts: map<string, nat>, v: string, i: nat)
    requires multiset(res) + dropped == pushed && Dominates(multiset(res), dropped) && Tally(pushed, counts)
    requires v in counts && i < |res| && Stat(v, counts[v]) !in res
    ensures counts[v] <= res[i].count
  {
    assert pushed[Stat(v, counts[v])] == 1;
    assert Stat(v, counts[v]) !in multiset(res);
    assert Stat(v, counts[v]) in dropped && res[i] in multiset(res);
  }

  /** The entries of the map that the list leaves out. */
  function Rest(counts: map<string, nat>, s: seq<Stat>): map<string, nat> {
    if s == [] then counts else Rest(counts, s[..|s| - 1]) - {s[|s| - 1].name}
  }

  lemma {:induction false} RestMeans(counts: map<string, nat>, s: seq<Stat>, v: string)
    ensures v in Rest(counts, s) <==> v in counts && forall i :: 0 <= i < |s| ==> s[i].name != v
    ensures v in Rest(counts, s) ==> Rest(counts, s)[v] == counts[v]
  {
    if s != [] {
      RestMeans(counts, s[..|s| - 1], v);
    }
  }

  lemma {:induction false} SumRest(s: seq<Stat>, counts: map<string, nat>)
    requires forall i, j :: 0 <= i < j < |s| ==> s[i].name != s[j].name
    requires forall i :: 0 <= i < |s| ==> s[i].name in counts && counts[s[i].name] == s[i].count
    ensures Sum(counts) == SumOf(s) + Sum(Rest(counts, s)) && |counts| == |s| + |Rest(counts, s)|
  {
    if s != [] {
      var n := |s| - 1;
      SumRest(s[..n], counts);
      RestMeans(counts, s[..n], s[n].name);
      SumWithout(Rest(counts, s[..n]), s[n].name);
    }
  }

  /** The list accounts for everything exactly when nothing had to be left out. */
  lemma TopListSum(res: seq<Stat>, counts: map<string, nat>, max: nat)
    requires TopList(res, counts, max) && forall v :: v in counts ==> counts[v] > 0
    ensures SumOf(res) == Sum(counts) <==> |counts| <= max
  {
    SumRest(res, counts);
    if v :| v in Rest(counts, res) {
      RestMeans(counts, res, v);
      SumWithout(Rest(counts, res), v);
    }
  }

  lemma TopListOf(res: seq<Stat>, dropped: multiset<Stat>, pushed: multiset<Stat>, counts: map<string, nat>, max: nat)
    requires TopOf(res, dropped, pushed, max) && Tally(pushed, counts) && |pushed| == |counts| && Descending(res)
    ensures TopList(res, counts, max)
  {
    TallyDistinct(res, pushed, counts);
    forall v, i | v in counts && 0 <= i < |res| && Stat(v, counts[v]) !in res ensures counts[v] <= res[i].count {
      TallyRest(res, dropped, pushed, counts, v, i);
    }
  }

  /** The heap has been given the entries of the map. */
  ghost predicate Loaded(metrics: MaxHeap, counts: map<string, nat>, max: nat)
    reads metrics
  {
    metrics.Valid() && metrics.maxLength == max && Tally(metrics.pushed, counts) && |metrics.pushed| == |counts|
  }

  method Load(metrics: MaxHeap, value: string, n: nat, ghost counts: map<string, nat>, ghost max: nat)
    requires Loaded(metrics, counts, max) && value !in counts && n <= MAX_UINT64
    modifies metrics
    ensures Loaded(metrics, counts[value := n], max)
  {
    TallyMore(metrics.pushed, counts, value, n);
    metrics.Push(Stat(value, n));
  }

  method Unload(metrics: MaxHeap, ghost counts: map<string, nat>, ghost max: nat) returns (res: seq<Stat>)
    requires Loaded(metrics, counts, max)
    modifies metrics
    ensures TopList(res, counts, max)
  {
    res := metrics.Get();
    TopListOf(res, metrics.dropped, metrics.pushed, counts, max);
  }

  method CountHits(list: seq<nat>, ids: set<nat>) returns (count: nat)
    ensures count == Hits(list, ids)
  {
    count := 0;
    for i := 0 to |list|
      invariant count == Hits(list[..i], ids)
    {
      assert list[..i + 1][..i] == list[..i];
      if list[i] in ids {
        count := count + 1;
      }
    }
    assert list[..|list|] == list;
  }

  function ValuesUnder(m: Table, name: string): map<string, seq<nat>> {
    if name in m then m[name] else map[]
  }

  /** The lists are short enough to be counted; a slice always is. */
  predicate Counted(lists: map<string, seq<nat>>) {
    forall v :: v in lists ==> |lists[v]| <= MAX_UINT64
  }

  /** The loop of LabelGroupDistribution. */
  method LoadHits(metrics: MaxHeap, e: map<string, seq<nat>>, ids: set<nat>, ghost max: nat)
    requires Loaded(metrics, map[], max) && Counted(e)
    modifies metrics
    ensures Loaded(metrics, Nonzero(HitsOf(e, ids)), max)
  {
    var todo := e.Keys;
    ghost var done: map<string, nat> := map[];
    while todo != {}
      invariant todo <= e.Keys && done == Nonzero(HitsOf(e - todo, ids))
      invariant Loaded(metrics, done, max)
    {
      var value :| value in todo;
      HitsWithin(e[value], ids);
      var count := CountHits(e[value], ids);
      NextHits(e, todo, value, ids);
      if count > 0 {
        Load(metrics, value, count, done, max);
        done := done[value := count];
      }
      todo := todo - {value};
    }
    assert e - {} == e;
  }

  /** The loop of LabelGroup. */
  method LoadLengths(metrics: MaxHeap, e: map<string, seq<nat>>, ghost max: nat)
    requires Loaded(metrics, map[], max) && Counted(e)
    modifies metrics
    ensures Loaded(metrics, LengthsOf(e), max)
  {
    var todo := e.Keys;
    ghost var done: map<string, nat> := map[];
    while todo != {}
      invariant todo <= e.Keys && done == LengthsOf(e - todo)
      invariant Loaded(metrics, done, max)
    {
      var value :| value in todo;
      NextLength(e, todo, value);
      Load(metrics, value, |e[value]|, done, max);
      done := done[value := |e[value]|];
      todo := todo - {value};
    }
    assert e - {} == e;
  }

  lemma NextHits(e: map<string, seq<nat>>, todo: set<string>, value: string, ids: set<nat>)
    requires value in todo && value in e
    ensures var before, after := Nonzero(HitsOf(e - todo, ids)), Nonzero(HitsOf(e - (todo - {value}), ids));
            var n := Hits(e[value], ids);
            value !in before && after == if n > 0 then before[value := n] else before
  {
  }

  lemma NextLength(e: map<string, seq<nat>>, todo: set<string>, value: string)
    requires value in todo && value in e
    ensures value !in LengthsOf(e - todo)
    ensures LengthsOf(e - (todo - {value})) == LengthsOf(e - todo)[value := |e[value]|]
  {
  }

  /** The values whose list holds one of the ids. */
  function HitValues(lists: map<string, seq<nat>>, ids: set<nat>): set<string> {
    set v | v in lists && Places(lists[v], ids) != {}
  }

  /** The values with the most places that hold one of the ids, largest first. */
  ghost predicate MostHit(res: seq<Stat>, lists: map<string, seq<nat>>, ids: set<nat>, max: nat) {
    && Descending(res) && |res| == (if |HitValues(lists, ids)| < max then |HitValues(lists, ids)| else max)
    && (forall i, j :: 0 <= i < j < |res| ==> res[i].name != res[j].name)
    && (forall i :: 0 <= i < |res| ==> res[i].name in lists && res[i].count == |Places(lists[res[i].name], ids)| > 0)
    && (forall v, i :: v in lists && 0 <= i < |res| && Stat(v, |Places(lists[v], ids)|) !in res ==>
          |Places(lists[v], ids)| <= res[i].count)
  }

  lemma MostHitOfTop(res: seq<Stat>, lists: map<string, seq<nat>>, ids: set<nat>, max: nat)
    requires TopList(res, Nonzero(HitsOf(lists, ids)), max)
    ensures MostHit(res, lists, ids, max) && |Nonzero(HitsOf(lists, ids))| == |HitValues(lists, ids)|
  {
    var counts := Nonzero(HitsOf(lists, ids));
    forall v | v in lists ensures Hits(lists[v], ids) == |Places(lists[v], ids)| && (v in counts <==> v in HitValues(lists, ids)) {
      HitsCount(lists[v], ids);
    }
    assert counts.Keys == HitValues(lists, ids);
  }

  /** LabelGroupDistribution: the twenty values with the most list entries among the matched ids. */
  method LabelGroupDistribution(p: MemPostings, name: string, matchIds: seq<nat>) returns (res: seq<Stat>)
    requires Counted(ValuesUnder(p.m, name))
    ensures var lists, ids := ValuesUnder(p.m, name), set id | id in matchIds;
            MostHit(res, lists, ids, 20) && (SumOf(res) == |Matching(lists, ids)| <==> |HitValues(lists, ids)| <= 20)
  {
    var existsIds := set id | id in matchIds;
    ghost var lists := ValuesUnder(p.m, name);
    ghost var hits := Nonzero(HitsOf(lists, existsIds));
    if |matchIds| == 0 || name !in p.m {
      NoHits(lists, existsIds);
      Accounted([], lists, existsIds);
      return [];
    }
    var metrics := new MaxHeap(20);
    LoadHits(metrics, p.m[name], existsIds, 20);
    res := Unload(metrics, hits, 20);
    Accounted(res, lists, existsIds);
  }

  lemma Accounted(res: seq<Stat>, lists: map<string, seq<nat>>, ids: set<nat>)
    requires TopList(res, Nonzero(HitsOf(lists, ids)), 20)
    ensures MostHit(res, lists, ids, 20) && (SumOf(res) == |Matching(lists, ids)| <==> |HitValues(lists, ids)| <= 20)
  {
    SumMatching(lists, ids);
    SumNonzero(HitsOf(lists, ids));
    TopListSum(res, Nonzero(HitsOf(lists, ids)), 20);
    MostHitOfTop(res, lists, ids, 20);
  }

  lemma NoHits(lists: map<string, seq<nat>>, ids: set<nat>)
    requires lists == map[] || ids == {}
    ensures Nonzero(HitsOf(lists, ids)) == map[]
  {
    forall v | v in lists ensures Hits(lists[v], ids) == 0 {
      HitsNone(lists[v], ids);
    }
  }

  lemma {:induction false} HitsNone(list: seq<nat>, ids: set<nat>)
    requires ids == {}
    ensures Hits(list, ids) == 0
  {
    if list != [] {
      HitsNone(list[..|list| - 1], ids);
    }
  }

  /** The values with the longest lists, longest first. */
  ghost predicate Longest(res: seq<Stat>, lists: map<string, seq<nat>>, max: nat) {
    && Descending(res) && |res| == (if |lists| < max then |lists| else max)
    && (forall i, j :: 0 <= i < j < |res| ==> res[i].name != res[j].name)
    && (forall i :: 0 <= i < |res| ==> res[i].name in lists && res[i].count == |lists[res[i].name]|)
    && (forall v, i :: v in lists && 0 <= i < |res| && Stat(v, |lists[v]|) !in res ==> |lists[v]| <= res[i].count)
  }

  lemma LongestOfTop(res: seq<Stat>, lists: map<string, seq<nat>>, max: nat)
    requires TopList(res, LengthsOf(lists), max)
    ensures Longest(res, lists, max)
  {
    assert LengthsOf(lists).Keys == lists.Keys;
  }

  /** LabelGroup: the ten values with the longest lists. */
  method LabelGroup(p: MemPostings, name: string) returns (res: seq<Stat>)
    requires Counted(ValuesUnder(p.m, name))
    ensures Longest(res, ValuesUnder(p.m, name), 10)
  {
    if name !in p.m {
      return [];
    }
    var metrics := new MaxHeap(10);
    LoadLengths(metrics, p.m[name], 10);
    res := Unload(metrics, LengthsOf(p.m[name]), 10);
    LongestOfTop(res, p.m[name], 10);
  }
}
