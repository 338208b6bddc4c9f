// The collector of cmd/server/xprober/data.go: storing, expiring and averaging probe results.

module Collecting {
  import opened Wrappers

  /** The fields that make up the key of a stored result. */
  datatype Uid = Uid(worker: string, metric: string, source: string, target: string, ptype: string, address: string)

  /** A probe result; the value is taken as a real number. */
  datatype Result = Result(uid: Uid, timestamp: int, value: real)

  /** unicode.IsSpace. */
  predicate IsSpace(c: char) {
    || c == ' ' || '\t' <= c <= '\r' || c == '\U{85}' || c == '\U{A0}' || c == '\U{1680}'
    || '\U{2000}' <= c <= '\U{200A}' || c == '\U{2028}' || c == '\U{2029}' || c == '\U{202F}'
    || c == '\U{205F}' || c == '\U{3000}'
  }

  predicate Blank(s: string) {
    forall i :: 0 <= i < |s| ==> IsSpace(s[i])
  }

  /** The results that Store does not skip. */
  predicate Accepted(r: Option<Result>) {
    r.Some? && !Blank(r.value.uid.metric)
  }

  function Stamped(r: Result, now: int): Result {
    if r.timestamp <= 0 then r.(timestamp := now) else r
  }

  /** The last accepted result with the key, in the order of arrival. */
  function LastOf(rs: seq<Option<Result>>, u: Uid): Option<Result> {
    if rs == [] then None
    else if Accepted(rs[|rs| - 1]) && rs[|rs| - 1].value.uid == u then rs[|rs| - 1]
    else LastOf(rs[..|rs| - 1], u)
  }

  function AcceptedCount(rs: seq<Option<Result>>): nat {
    if rs == [] then 0 else AcceptedCount(rs[..|rs| - 1]) + if Accepted(rs[|rs| - 1]) then 1 else 0
  }

  /** The store after the results have arrived: for every key the last one accepted, else what was there. */
  ghost predicate StoreStep(before: map<Uid, Result>, rs: seq<Option<Result>>, now: int, after: map<Uid, Result>) {
    forall u ::
      match LastOf(rs, u)
      case Some(r) => u in after && after[u] == Stamped(r, now)
      case None => (u in after <==> u in before) && (u in after ==> after[u] == before[u])
  }

  /** One more result arrives. */
  lemma StoreMore(before: map<Uid, Result>, rs: seq<Option<Result>>, k: nat, now: int, after: map<Uid, Result>)
    requires k < |rs| && StoreStep(before, rs[..k], now, after)
    ensures AcceptedCount(rs[..k + 1]) == AcceptedCount(rs[..k]) + if Accepted(rs[k]) then 1 else 0
    ensures if Accepted(rs[k]) then var r := Stamped(rs[k].value, now); StoreStep(before, rs[..k + 1], now, after[r.uid := r])
            else StoreStep(before, rs[..k + 1], now, after)
  {
    assert rs[..k + 1][..k] == rs[..k];
  }

  /** The characters of Unicode's White_Space property. */
  const SPACES: seq<char> :=
    ['\U{9}', '\U{A}', '\U{B}', '\U{C}', '\U{D}', '\U{20}', '\U{85}', '\U{A0}', '\U{1680}', '\U{2000}', '\U{2001}', '\U{2002}',
     '\U{2003}', '\U{2004}', '\U{2005}', '\U{2006}', '\U{2007}', '\U{2008}', '\U{2009}', '\U{200A}', '\U{2028}', '\U{2029}',
     '\U{202F}', '\U{205F}', '\U{3000}']

  lemma SpaceListed(c: char)
    ensures IsSpace(c) <==> c in SPACES
  {
    if IsSpace(c) {
      if '\t' <= c <= '\r' {
        assert SPACES[c as int - 9] == c;
      } else if '\U{2000}' <= c <= '\U{200A}' {
        assert SPACES[c as int - 0x2000 + 9] == c;
      }
      assert SPACES[5] == ' ' && SPACES[6] == '\U{85}' && SPACES[7] == '\U{A0}' && SPACES[8] == '\U{1680}';
      assert SPACES[20] == '\U{2028}' && SPACES[21] == '\U{2029}' && SPACES[22] == '\U{202F}' && SPACES[23] == '\U{205F}';
      assert SPACES[24] == '\U{3000}';
    }
  }

  /** Every result is accepted but nil ones and those whose metric name is all white space. */
  lemma AcceptedMeans(r: Option<Result>)
    ensures Accepted(r) <==> r.Some? && exists i :: 0 <= i < |r.value.uid.metric| && r.value.uid.metric[i] !in SPACES
  {
    if r.Some? {
      forall i | 0 <= i < |r.value.uid.metric| ensures IsSpace(r.value.uid.metric[i]) <==> r.value.uid.metric[i] in SPACES {
        SpaceListed(r.value.uid.metric[i]);
      }
    }
  }

  /** The metric name has a character that shows. */
  predicate Named(r: Option<Result>) {
    r.Some? && exists i :: 0 <= i < |r.value.uid.metric| && '!' <= r.value.uid.metric[i] <= '~'
  }

  lemma NamedAccepted(r: Option<Result>)
    requires Named(r)
    ensures Accepted(r)
  {
    var i :| 0 <= i < |r.value.uid.metric| && '!' <= r.value.uid.metric[i] <= '~';
    assert !IsSpace(r.value.uid.metric[i]);
  }

  lemma {:induction false} NamedCounted(rs: seq<Option<Result>>)
    requires forall i :: 0 <= i < |rs| ==> Named(rs[i])
    ensures AcceptedCount(rs) == |rs|
  {
    if rs != [] {
      NamedAccepted(rs[|rs| - 1]);
      NamedCounted(rs[..|rs| - 1]);
    }
  }

  /** No later result has the key of the one at i. */
  predicate IsLatest(rs: seq<Option<Result>>, i: int) {
    0 <= i < |rs| && rs[i].Some? && forall j :: i < j < |rs| && rs[j].Some? ==> rs[j].value.uid != rs[i].value.uid
  }

  lemma {:induction false} LatestIsLast(rs: seq<Option<Result>>, i: nat)
    requires IsLatest(rs, i) && Named(rs[i])
    ensures LastOf(rs, rs[i].value.uid) == rs[i]
  {
    NamedAccepted(rs[i]);
    if i < |rs| - 1 {
      LatestIsLast(rs[..|rs| - 1], i);
    }
  }

  /** The store holds every named result that no later one replaces, with its own time if it has one, else the present. */
  ghost predicate HoldsLatest(rs: seq<Option<Result>>, now: int, after: map<Uid, Result>) {
    forall i :: 0 <= i < |rs| && Named(rs[i]) && IsLatest(rs, i) ==>
      var r := rs[i].value;
      r.uid in after && after[r.uid] == Result(r.uid, if r.timestamp > 0 then r.timestamp else now, r.value)
  }

  lemma LatestHeld(before: map<Uid, Result>, rs: seq<Option<Result>>, now: int, after: map<Uid, Result>)
    requires StoreStep(before, rs, now, after)
    ensures HoldsLatest(rs, now, after)
  {
    forall i | 0 <= i < |rs| && Named(rs[i]) && IsLatest(rs, i)
      ensures var r := rs[i].value;
              r.uid in after && after[r.uid] == Result(r.uid, if r.timestamp > 0 then r.timestamp else now, r.value)
    {
      LatestIsLast(rs, i);
    }
  }

  /** Every stored result is filed under its own key. */
  ghost predicate Filed(results: map<Uid, Result>) {
    forall u :: u in results ==> results[u].uid == u
  }

  lemma {:induction false} LastOfIsOwn(rs: seq<Option<Result>>, u: Uid)
    ensures LastOf(rs, u).Some? ==> LastOf(rs, u).value.uid == u && LastOf(rs, u) in rs && Accepted(LastOf(rs, u))
  {
    if rs != [] {
      LastOfIsOwn(rs[..|rs| - 1], u);
    }
  }

  // ---- averages

  /** The sum of the values filed under a set of keys. */
  ghost function Sum(results: map<Uid, Result>, us: set<Uid>): real
    requires us <= results.Keys
    decreases us
  {
    if us == {} then 0.0 else
      var u :| u in us;
      results[u].value + Sum(results, us - {u})
  }

  /** The order of summing does not matter. */
  lemma {:induction false} SumAny(results: map<Uid, Result>, us: set<Uid>, u: Uid)
    requires us <= results.Keys && u in us
    ensures Sum(results, us) == results[u].value + Sum(results, us - {u})
    decreases us
  {
    var w :| w in us && Sum(results, us) == results[w].value + Sum(results, us - {w});
    if w != u {
      SumAny(results, us - {w}, u);
      SumAny(results, us - {u}, w);
      assert us - {w} - {u} == us - {u} - {w};
    }
  }

  lemma {:induction false} SumSame(a: map<Uid, Result>, b: map<Uid, Result>, us: set<Uid>)
    requires us <= a.Keys && us <= b.Keys && forall u :: u in us ==> a[u] == b[u]
    ensures Sum(a, us) == Sum(b, us)
    decreases us
  {
    if us != {} {
      var u :| u in us;
      SumAny(a, us, u);
      SumAny(b, us, u);
      SumSame(a, b, us - {u});
    }
  }

  /** The metrics with a gauge of their own: those of ICMP are kept per pair of regions, the others per address. */
  datatype Scope = PerRegions | PerAddress | Unknown

  const PING_METRICS := {"ping_latency_milliseconds", "ping_packetDrop_rate", "ping_target_success"}
  const TARGET_METRICS :=
    {"http_interface_success", "http_resolve_duration_milliseconds", "http_tls_duration_milliseconds",
     "http_connect_duration_milliseconds", "http_processing_duration_milliseconds",
     "http_transfer_duration_milliseconds", "tcp_connect_duration_milliseconds", "tcp_connect_success",
     "dns_lookup_duration_milliseconds", "dns_lookup_success", "dns_answer_count",
     "tls_handshake_duration_milliseconds", "tls_connect_success", "tls_certificate_valid",
     "tls_certificate_expiry_seconds"}

  function ScopeOf(metric: string): Scope {
    if metric in PING_METRICS then PerRegions else if metric in TARGET_METRICS then PerAddress else Unknown
  }

  /** The series of a protocol gauge: its metric name and label values. */
  datatype Series = Series(metric: string, labels: seq<string>)

  function SeriesOf(u: Uid): Option<Series> {
    match ScopeOf(u.metric)
    case PerRegions => Some(Series(u.metric, [u.source, u.target]))
    case PerAddress => Some(Series(u.metric, [u.source, u.target, u.address]))
    case Unknown => None
  }

  const TTL := 5 * 60 * 1_000_000_000

  /** A result, stamped in seconds, is live at a time in nanoseconds unless it is older than five minutes. */
  predicate Live(r: Result, now: int) {
    now - r.timestamp * 1_000_000_000 <= TTL
  }

  /** The keys whose results go into a series. */
  function Members(results: map<Uid, Result>, us: set<Uid>, s: Series): set<Uid> {
    set u | u in us && u in results && SeriesOf(u) == Some(s)
  }

  datatype Aggregate = Aggregate(sum: real, count: nat)

  /** The aggregates are the sums and counts over the given keys. */
  ghost predicate Aggregated(aggs: map<Series, Aggregate>, results: map<Uid, Result>, us: set<Uid>) {
    && (forall s :: s in aggs <==> Members(results, us, s) != {})
    && (forall s :: s in aggs ==> aggs[s] == Aggregate(Sum(results, Members(results, us, s)), |Members(results, us, s)|))
  }

  function AddTo(aggs: map<Series, Aggregate>, u: Uid, value: real): map<Series, Aggregate> {
    match SeriesOf(u)
    case None => aggs
    case Some(s) =>
      var a := if s in aggs then aggs[s] else Aggregate(0.0, 0);
      aggs[s := Aggregate(a.sum + value, a.count + 1)]
  }

  lemma MembersMore(results: map<Uid, Result>, us: set<Uid>, u: Uid, s: Series)
    requires u !in us && u in results
    ensures var more := Members(results, us + {u}, s);
            if SeriesOf(u) == Some(s) then
              u in more && |more| == |Members(results, us, s)| + 1 &&
              Sum(results, more) == results[u].value + Sum(results, Members(results, us, s))
            else more == Members(results, us, s)
  {
    var ms, more := Members(results, us, s), Members(results, us + {u}, s);
    if SeriesOf(u) == Some(s) {
      assert more == ms + {u} && more - {u} == ms;
      SumAny(results, more, u);
    } else {
      assert more == ms;
    }
  }

  lemma AggregatedMore(aggs: map<Series, Aggregate>, results: map<Uid, Result>, us: set<Uid>, u: Uid)
    requires Aggregated(aggs, results, us) && u !in us && u in results
    ensures Aggregated(AddTo(aggs, u, results[u].value), results, us + {u})
  {
    var more := AddTo(aggs, u, results[u].value);
    forall s
      ensures s in more <==> Members(results, us + {u}, s) != {}
      ensures s in more ==>
                var ms := Members(results, us + {u}, s); more[s] == Aggregate(Sum(results, ms), |ms|)
    {
      MembersMore(results, us, u, s);
    }
  }

  ghost function TotalCount(aggs: map<Series, Aggregate>): nat {
    if aggs == map[] then 0 else
      var s :| s in aggs;
      aggs[s].count + TotalCount(aggs - {s})
  }

  /** The keys of results that some protocol gauge shows. */
  function Known(results: map<Uid, Result>, us: set<Uid>): set<Uid> {
    set u | u in us && u in results && SeriesOf(u).Some?
  }

  lemma MembersApart(results: map<Uid, Result>, us: set<Uid>, s: Series)
    ensures var ms := Members(results, us, s);
            && |Known(results, us)| == |ms| + |Known(results, us - ms)|
            && Members(results, us - ms, s) == {}
            && forall s' :: s' != s ==> Members(results, us - ms, s') == Members(results, us, s')
  {
    var ms := Members(results, us, s);
    assert Known(results, us) == ms + Known(results, us - ms);
  }

  lemma AggregatedLess(aggs: map<Series, Aggregate>, results: map<Uid, Result>, us: set<Uid>, s: Series)
    requires Aggregated(aggs, results, us)
    ensures Aggregated(aggs - {s}, results, us - Members(results, us, s))
  {
    MembersApart(results, us, s);
  }

  lemma KnownMember(results: map<Uid, Result>, us: set<Uid>, u: Uid)
    requires u in Known(results, us)
    ensures u in Members(results, us, SeriesOf(u).value)
  {
  }

  /** Every known result counts in exactly one series. */
  lemma {:induction false} CountsAddUp(aggs: map<Series, Aggregate>, results: map<Uid, Result>, us: set<Uid>)
    requires Aggregated(aggs, results, us)
    ensures TotalCount(aggs) == |Known(results, us)|
    decreases |aggs|
  {
    if aggs == map[] {
      if u :| u in Known(results, us) {
        KnownMember(results, us, u);
      }
      assert Known(results, us) == {};
    } else {
      var s :| s in aggs && TotalCount(aggs) == aggs[s].count + TotalCount(aggs - {s});
      MembersApart(results, us, s);
      AggregatedLess(aggs, results, us, s);
      CountsAddUp(aggs - {s}, results, us - Members(results, us, s));
    }
  }

  /** The label names of the protocol gauges: the metrics of a ping have no target address. */
  const PING_LABELS := ["source_region", "target_region"]
  const TARGET_LABELS := ["source_region", "target_region", "target_address"]

  function LabelValue(u: Uid, name: string): string {
    if name == "source_region" then u.source else if name == "target_region" then u.target else u.address
  }

  /** A series carries the values of its metric's label names, in their order. */
  lemma SeriesLabels(u: Uid)
    ensures match SeriesOf(u)
            case None => u.metric !in PING_METRICS && u.metric !in TARGET_METRICS
            case Some(s) =>
              var names := if u.metric in PING_METRICS then PING_LABELS else TARGET_LABELS;
              && (u.metric in PING_METRICS || u.metric in TARGET_METRICS) && s.metric == u.metric
              && |s.labels| == |names| && forall i :: 0 <= i < |names| ==> s.labels[i] == LabelValue(u, names[i])
  {
  }

  function Expired(results: map<Uid, Result>, now: int): set<Uid> {
    set u | u in results && !Live(results[u], now)
  }

  class Collector {
    var results: map<Uid, Result>
    var generic: map<Uid, real>
    var specific: map<Series, real>

    constructor ()
      ensures results == map[] && generic == map[] && specific == map[]
    {
      results, generic, specific := map[], map[], map[];
    }

    method Store(rs: seq<Option<Result>>, now: int) returns (stored: nat)
      modifies this`results
      ensures StoreStep(old(results), rs, now, results) && stored == AcceptedCount(rs)
      ensures old(Filed(results)) ==> Filed(results)
      ensures HoldsLatest(rs, now, results) && ((forall i :: 0 <= i < |rs| ==> Named(rs[i])) ==> stored == |rs|)
    {
      stored := 0;
      for k := 0 to |rs|
        invariant StoreStep(old(results), rs[..k], now, results) && stored == AcceptedCount(rs[..k])
        invariant old(Filed(results)) ==> Filed(results)
      {
        StoreMore(old(results), rs, k, now, results);
        if Accepted(rs[k]) {
          var copy := Stamped(rs[k].value, now);
          results := results[copy.uid := copy];
          stored := stored + 1;
        }
      }
      assert rs[..|rs|] == rs;
      LatestHeld(old(results), rs, now, results);
      if forall i :: 0 <= i < |rs| ==> Named(rs[i]) {
        NamedCounted(rs);
      }
    }

    method Expire(now: int)
      modifies this`results
      ensures results == old(results) - Expired(old(results), now)
    {
      var todo := results.Keys;
      while todo != {}
        invariant todo <= results.Keys
        invariant results == old(results) - (Expired(old(results), now) - todo)
        decreases todo
      {
        var u :| u in todo;
        todo := todo - {u};
        if !Live(results[u], now) {
          results := results - {u};
        }
      }
    }

    method PublishGeneric()
      requires Filed(results)
      modifies this`generic
      ensures generic.Keys == results.Keys && forall u :: u in generic ==> generic[u] == results[u].value
    {
      generic := map[];
      var todo := results.Keys;
      while todo != {}
        invariant todo <= results.Keys && generic.Keys == results.Keys - todo
        invariant forall u :: u in generic ==> generic[u] == results[u].value
        decreases todo
      {
        var u :| u in todo;
        todo := todo - {u};
        generic := generic[results[u].uid := results[u].value];
      }
    }

    method AggregateAll() returns (aggs: map<Series, Aggregate>)
      requires Filed(results)
      ensures Aggregated(aggs, results, results.Keys)
      ensures forall s :: s in aggs ==> aggs[s].count > 0
    {
      aggs := map[];
      var todo := results.Keys;
      while todo != {}
        invariant todo <= results.Keys && Aggregated(aggs, results, results.Keys - todo)
        decreases todo
      {
        var u :| u in todo;
        AggregatedMore(aggs, results, results.Keys - todo, u);
        assert results.Keys - todo + {u} == results.Keys - (todo - {u});
        aggs := AddTo(aggs, results[u].uid, results[u].value);
        todo := todo - {u};
      }
      assert results.Keys - {} == results.Keys;
    }

    /** Drops what has expired and publishes the rest: every live result by itself, and for every protocol
        series the mean of exactly its live results. */
    method Publish(now: int)
      requires Filed(results)
      modifies this
      ensures results.Keys == set u | u in old(results) && now - old(results)[u].timestamp * 1_000_000_000 <= 300_000_000_000
      ensures Filed(results) && forall u :: u in results ==> results[u] == old(results)[u]
      ensures generic.Keys == results.Keys && forall u :: u in generic ==> generic[u] == results[u].value
      ensures forall s :: s in specific <==> Members(results, results.Keys, s) != {}
      ensures forall s :: s in specific ==>
                var us := Members(results, results.Keys, s);
                specific[s] == Sum(results, us) / |us| as real
    {
      Expire(now);
      PublishGeneric();
      var aggs := AggregateAll();
      specific := map[];
      var todo := aggs.Keys;
      while todo != {}
        invariant todo <= aggs.Keys && results == old(results) - Expired(old(results), now)
        invariant generic.Keys == results.Keys && forall u :: u in generic ==> generic[u] == results[u].value
        invariant specific.Keys == aggs.Keys - todo
        invariant forall s :: s in specific ==> specific[s] == aggs[s].sum / aggs[s].count as real
        decreases todo
      {
        var s :| s in todo;
        todo := todo - {s};
        specific := specific[s := aggs[s].sum / aggs[s].count as real];
      }
    }
  }
}
