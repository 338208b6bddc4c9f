// LocalTargetManager and LocalTarget of cmd/agent/xprober/target.go: which probe workers run.

module Reconcile {
  import opened Wrappers
  import opened Collecting
  import opened ProbePush

  datatype Target = Target(ptype: string, address: string, source: string, region: string,
                           interval: int, timeout: int, options: map<string, string>)

  /** A group of targets as the server sends it; times are in seconds. */
  datatype TargetGroup = TargetGroup(ptype: string, region: string, addresses: seq<string>,
                                     interval: int, timeout: int, options: map<string, string>)

  const SECOND := 1_000_000_000
  const DEFAULT_INTERVAL := 15 * SECOND
  const DEFAULT_TIMEOUT := 10 * SECOND

  /** strings.TrimSpace. */
  function Trim(s: string): string {
    if s != "" && IsSpace(s[0]) then Trim(s[1..])
    else if s != "" && IsSpace(s[|s| - 1]) then Trim(s[..|s| - 1])
    else s
  }

  /** strings.ToLower on ASCII. */
  function Lower(s: string): string {
    seq(|s|, i requires 0 <= i < |s| => if 'A' <= s[i] <= 'Z' then s[i] + ('a' - 'A') else s[i])
  }

  function Normalize(t: Target): Target {
    Target(Lower(Trim(t.ptype)), Trim(t.address), t.source, t.region,
           if t.interval <= 0 then DEFAULT_INTERVAL else t.interval,
           if t.timeout <= 0 then DEFAULT_TIMEOUT else t.timeout,
           t.options)
  }

  /** targetUID. */
  function KeyOfTarget(t: Target): Key {
    Key(t.ptype, t.region, t.address)
  }

  function TargetOf(g: TargetGroup, source: string, address: string): Target {
    Normalize(Target(Lower(Trim(g.ptype)), address, source, g.region, g.interval * SECOND, g.timeout * SECOND, g.options))
  }

  /** What is left of s without the white space around it are the n characters from a on. */
  ghost predicate Core(s: string, a: int, n: nat) {
    && 0 <= a && a + n <= |s| && (forall i :: 0 <= i < a || a + n <= i < |s| ==> IsSpace(s[i]))
    && (n > 0 ==> !IsSpace(s[a]) && !IsSpace(s[a + n - 1]))
  }

  /** t is s without the white space around it. */
  ghost predicate Stripped(s: string, t: string) {
    exists a :: Core(s, a, |t|) && t == s[a..a + |t|]
  }

  /** t is s in lower case. */
  ghost predicate Lowered(s: string, t: string) {
    |t| == |s| && forall i :: 0 <= i < |s| ==> if 'A' <= s[i] <= 'Z' then t[i] as int == s[i] as int + 32 else t[i] == s[i]
  }

  /** t is s without the white space around it, in lower case. */
  ghost predicate StrippedLow(s: string, t: string) {
    exists a :: Core(s, a, |t|) && Lowered(s[a..a + |t|], t)
  }

  /** The group asks for the target with its address j. */
  ghost predicate Asks(g: TargetGroup, protocols: set<string>, source: string, j: int, t: Target) {
    && 0 <= j < |g.addresses| && t.ptype in protocols && t.address != ""
    && StrippedLow(g.ptype, t.ptype) && Stripped(g.addresses[j], t.address)
    && t.source == source && t.region == g.region && t.options == g.options
    && t.interval == (if g.interval > 0 then g.interval * 1_000_000_000 else 15_000_000_000)
    && t.timeout == (if g.timeout > 0 then g.timeout * 1_000_000_000 else 10_000_000_000)
  }

  lemma {:induction false} TrimCore(s: string) returns (a: nat)
    ensures Core(s, a, |Trim(s)|) && Trim(s) == s[a..a + |Trim(s)|]
  {
    a := 0;
    if s != "" && IsSpace(s[0]) {
      var b := TrimCore(s[1..]);
      CoreAfter(s, b, |Trim(s)|);
      a := b + 1;
    } else if s != "" && IsSpace(s[|s| - 1]) {
      a := TrimCore(s[..|s| - 1]);
      CoreBefore(s, a, |Trim(s)|);
    }
  }

  lemma CoreAfter(s: string, a: int, n: nat)
    requires s != "" && IsSpace(s[0]) && Core(s[1..], a, n)
    ensures Core(s, a + 1, n)
  {
    assert forall i :: 0 < i < |s| ==> s[i] == s[1..][i - 1];
  }

  lemma CoreBefore(s: string, a: int, n: nat)
    requires s != "" && IsSpace(s[|s| - 1]) && Core(s[..|s| - 1], a, n)
    ensures Core(s, a, n)
  {
    assert forall i :: 0 <= i < |s| - 1 ==> s[i] == s[..|s| - 1][i];
  }

  lemma CoreUnique(s: string, a: int, m: nat, b: int, n: nat)
    requires Core(s, a, m) && Core(s, b, n)
    ensures m == n && (m > 0 ==> a == b)
  {
    if m > 0 {
      assert !IsSpace(s[a]) && !IsSpace(s[a + m - 1]);
    }
    if n > 0 {
      assert !IsSpace(s[b]) && !IsSpace(s[b + n - 1]);
    }
  }

  lemma TrimMeans(s: string, t: string)
    ensures t == Trim(s) <==> Stripped(s, t)
  {
    var a := TrimCore(s);
    if Stripped(s, t) {
      var b :| Core(s, b, |t|) && t == s[b..b + |t|];
      CoreUnique(s, a, |Trim(s)|, b, |t|);
    }
  }

  lemma LowerMeans(s: string, t: string)
    ensures t == Lower(s) <==> Lowered(s, t)
  {
    if Lowered(s, t) {
      assert forall i :: 0 <= i < |s| ==> t[i] == Lower(s)[i];
    }
  }

  lemma LowTrimMeans(s: string, t: string)
    ensures t == Lower(Trim(s)) <==> StrippedLow(s, t)
  {
    var a := TrimCore(s);
    LowerMeans(Trim(s), t);
    if StrippedLow(s, t) {
      var b :| Core(s, b, |t|) && Lowered(s[b..b + |t|], t);
      CoreUnique(s, a, |Trim(s)|, b, |t|);
    }
  }

  /** Normalising a type that is already normal changes nothing. */
  lemma LowTrimTwice(s: string)
    ensures Lower(Trim(Lower(Trim(s)))) == Lower(Trim(s))
  {
    var a := TrimCore(s);
    assert Trim(Lower(Trim(s))) == Lower(Trim(s));
  }

  /** The loop over the addresses makes the target of address j. */
  ghost predicate Makes(g: TargetGroup, protocols: set<string>, source: string, j: int, t: Target) {
    && 0 <= j < |g.addresses| && Lower(Trim(g.ptype)) in protocols
    && t == TargetOf(g, source, g.addresses[j]) && t.address != ""
  }

  /** The loop makes the targets that the group asks for. */
  lemma MakesAsked(g: TargetGroup, protocols: set<string>, source: string, j: int, t: Target)
    ensures Makes(g, protocols, source, j, t) <==> Asks(g, protocols, source, j, t)
  {
    if 0 <= j < |g.addresses| {
      LowTrimMeans(g.ptype, t.ptype);
      LowTrimTwice(g.ptype);
      TrimMeans(g.addresses[j], t.address);
    }
  }

  ghost predicate AsksAt(groups: seq<Option<TargetGroup>>, protocols: set<string>, source: string, i: int, j: int, t: Target) {
    0 <= i < |groups| && groups[i].Some? && Asks(groups[i].value, protocols, source, j, t)
  }

  /** A target asked for, and where: the group and the address. */
  datatype Ask = Ask(i: int, j: int, t: Target)

  predicate Earlier(a: Ask, b: Ask) {
    a.i < b.i || (a.i == b.i && a.j < b.j)
  }

  /** What the group i asks for with its first n addresses. */
  function AsksOf(g: TargetGroup, protocols: set<string>, source: string, i: int, n: nat): seq<Ask>
    requires n <= |g.addresses|
  {
    if n == 0 || Lower(Trim(g.ptype)) !in protocols then [] else
      var t := TargetOf(g, source, g.addresses[n - 1]);
      AsksOf(g, protocols, source, i, n - 1) + if t.address == "" then [] else [Ask(i, n - 1, t)]
  }

  function GroupAsks(groups: seq<Option<TargetGroup>>, protocols: set<string>, source: string, i: nat): seq<Ask>
    requires i < |groups|
  {
    match groups[i]
    case None => []
    case Some(g) => AsksOf(g, protocols, source, i, |g.addresses|)
  }

  function Joined(parts: seq<seq<Ask>>): seq<Ask> {
    if parts == [] then [] else Joined(parts[..|parts| - 1]) + parts[|parts| - 1]
  }

  function Parts(groups: seq<Option<TargetGroup>>, protocols: set<string>, source: string, n: nat): seq<seq<Ask>>
    requires n <= |groups|
  {
    seq(n, i requires 0 <= i < n => GroupAsks(groups, protocols, source, i))
  }

  /** What the first n groups ask for. */
  function Asked(groups: seq<Option<TargetGroup>>, protocols: set<string>, source: string, n: nat): seq<Ask>
    requires n <= |groups|
  {
    Joined(Parts(groups, protocols, source, n))
  }

  /** Of the targets with the same key the last one counts. */
  function Lasts(asks: seq<Ask>): map<Key, Target> {
    if asks == [] then map[] else
      var last := asks[|asks| - 1].t;
      Lasts(asks[..|asks| - 1])[KeyOfTarget(last) := last]
  }

  /** The targets wanted after the first n groups. */
  function Want(groups: seq<Option<TargetGroup>>, protocols: set<string>, source: string, n: nat): map<Key, Target>
    requires n <= |groups|
  {
    Lasts(Asked(groups, protocols, source, n))
  }

  ghost predicate InOrder(asks: seq<Ask>) {
    forall x, y :: 0 <= x < y < |asks| ==> Earlier(asks[x], asks[y])
  }

  lemma {:induction false} AsksOfMeans(g: TargetGroup, protocols: set<string>, source: string, i: int, n: nat, a: Ask)
    requires n <= |g.addresses|
    ensures a in AsksOf(g, protocols, source, i, n) <==> a.i == i && a.j < n && Makes(g, protocols, source, a.j, a.t)
  {
    if n > 0 && Lower(Trim(g.ptype)) in protocols {
      AsksOfMeans(g, protocols, source, i, n - 1, a);
    }
  }

  lemma GroupAsksMeans(groups: seq<Option<TargetGroup>>, protocols: set<string>, source: string, i: nat, a: Ask)
    requires i < |groups|
    ensures a in GroupAsks(groups, protocols, source, i) <==> a.i == i && AsksAt(groups, protocols, source, a.i, a.j, a.t)
  {
    if groups[i].Some? {
      var g := groups[i].value;
      AsksOfMeans(g, protocols, source, i, |g.addresses|, a);
      MakesAsked(g, protocols, source, a.j, a.t);
    }
  }

  lemma {:induction false} JoinedMeans(parts: seq<seq<Ask>>, a: Ask)
    ensures a in Joined(parts) <==> exists i :: 0 <= i < |parts| && a in parts[i]
  {
    if parts != [] {
      var init, last := parts[..|parts| - 1], parts[|parts| - 1];
      JoinedMeans(init, a);
      assert parts == init + [last];
    }
  }

  /** The sequence holds exactly what is asked for. */
  lemma AskedMeans(groups: seq<Option<TargetGroup>>, protocols: set<string>, source: string, n: nat, a: Ask)
    requires n <= |groups|
    ensures a in Asked(groups, protocols, source, n) <==> a.i < n && AsksAt(groups, protocols, source, a.i, a.j, a.t)
  {
    var parts := Parts(groups, protocols, source, n);
    JoinedMeans(parts, a);
    if i :| 0 <= i < n && a in parts[i] {
      GroupAsksMeans(groups, protocols, source, i, a);
    }
    if 0 <= a.i < n {
      GroupAsksMeans(groups, protocols, source, a.i, a);
      assert parts[a.i] == GroupAsks(groups, protocols, source, a.i);
    }
  }

  /** One more group. */
  lemma AskedMore(groups: seq<Option<TargetGroup>>, protocols: set<string>, source: string, n: nat)
    requires n < |groups|
    ensures Asked(groups, protocols, source, n + 1) == Asked(groups, protocols, source, n) + GroupAsks(groups, protocols, source, n)
  {
    assert Parts(groups, protocols, source, n + 1)[..n] == Parts(groups, protocols, source, n);
  }

  ghost predicate Below(asks: seq<Ask>, i: int) {
    forall x :: 0 <= x < |asks| ==> asks[x].i < i
  }

  ghost predicate AllIn(asks: seq<Ask>, i: int) {
    forall x :: 0 <= x < |asks| ==> asks[x].i == i
  }

  lemma OrderedConcat(asks: seq<Ask>, more: seq<Ask>)
    requires InOrder(asks) && InOrder(more) && forall a, b :: a in asks && b in more ==> Earlier(a, b)
    ensures InOrder(asks + more)
  {
    var all := asks + more;
    forall x, y | 0 <= x < y < |all| ensures Earlier(all[x], all[y]) {
      if x < |asks| <= y {
        assert asks[x] in asks && more[y - |asks|] in more;
      }
    }
  }

  lemma GroupConcat(asks: seq<Ask>, more: seq<Ask>, i: int) returns (all: seq<Ask>)
    requires InOrder(asks) && InOrder(more) && Below(asks, i) && AllIn(more, i)
    ensures all == asks + more && InOrder(all) && Below(all, i + 1)
  {
    forall a, b | a in asks && b in more ensures Earlier(a, b) {
      var x :| 0 <= x < |asks| && asks[x] == a;
      var y :| 0 <= y < |more| && more[y] == b;
    }
    OrderedConcat(asks, more);
    all := asks + more;
  }

  lemma {:induction false} AsksOfOrdered(g: TargetGroup, protocols: set<string>, source: string, i: int, n: nat)
    requires n <= |g.addresses|
    ensures InOrder(AsksOf(g, protocols, source, i, n))
  {
    if n > 0 && Lower(Trim(g.ptype)) in protocols {
      var before, t := AsksOf(g, protocols, source, i, n - 1), TargetOf(g, source, g.addresses[n - 1]);
      AsksOfOrdered(g, protocols, source, i, n - 1);
      forall a | a in before ensures Earlier(a, Ask(i, n - 1, t)) {
        AsksOfMeans(g, protocols, source, i, n - 1, a);
      }
      OrderedConcat(before, if t.address == "" then [] else [Ask(i, n - 1, t)]);
    }
  }

  lemma GroupOrdered(groups: seq<Option<TargetGroup>>, protocols: set<string>, source: string, i: nat) returns (asks: seq<Ask>)
    requires i < |groups|
    ensures asks == GroupAsks(groups, protocols, source, i) && InOrder(asks) && AllIn(asks, i)
  {
    asks := GroupAsks(groups, protocols, source, i);
    if groups[i].Some? {
      AsksOfOrdered(groups[i].value, protocols, source, i, |groups[i].value.addresses|);
    }
    forall x | 0 <= x < |asks| ensures asks[x].i == i {
      GroupAsksMeans(groups, protocols, source, i, asks[x]);
    }
  }

  /** The sequence follows the order of groups and addresses. */
  lemma {:induction false} AskedOrdered(groups: seq<Option<TargetGroup>>, protocols: set<string>, source: string, n: nat)
    returns (asks: seq<Ask>)
    requires n <= |groups|
    ensures asks == Asked(groups, protocols, source, n) && InOrder(asks) && Below(asks, n)
  {
    asks := [];
    if n > 0 {
      var before := AskedOrdered(groups, protocols, source, n - 1);
      var last := GroupOrdered(groups, protocols, source, n - 1);
      AskedMore(groups, protocols, source, n - 1);
      asks := GroupConcat(before, last, n - 1);
    }
  }

  lemma {:induction false} LastsMeans(asks: seq<Ask>, k: Key) returns (x: int)
    ensures if x >= 0 then
              && x < |asks| && KeyOfTarget(asks[x].t) == k && k in Lasts(asks) && Lasts(asks)[k] == asks[x].t
              && forall y :: x < y < |asks| ==> KeyOfTarget(asks[y].t) != k
            else k !in Lasts(asks) && forall y :: 0 <= y < |asks| ==> KeyOfTarget(asks[y].t) != k
  {
    x := -1;
    if asks != [] {
      if KeyOfTarget(asks[|asks| - 1].t) == k {
        x := |asks| - 1;
      } else {
        x := LastsMeans(asks[..|asks| - 1], k);
      }
    }
  }

  /** The target is asked for, and nothing after it asks for the same key. */
  ghost predicate LastOfAll(groups: seq<Option<TargetGroup>>, protocols: set<string>, source: string, n: int, a: Ask, k: Key) {
    && a.i < n && AsksAt(groups, protocols, source, a.i, a.j, a.t) && KeyOfTarget(a.t) == k
    && forall b: Ask :: b.i < n && Earlier(a, b) && AsksAt(groups, protocols, source, b.i, b.j, b.t) ==> KeyOfTarget(b.t) != k
  }

  /** The keys wanted are those asked for, each with the last target that asks for it. */
  lemma WantMeans(groups: seq<Option<TargetGroup>>, protocols: set<string>, source: string, n: nat, k: Key)
    requires n <= |groups|
    ensures var want := Want(groups, protocols, source, n);
            k in want <==> exists i, j, t :: i < n && AsksAt(groups, protocols, source, i, j, t) && KeyOfTarget(t) == k
    ensures var want := Want(groups, protocols, source, n);
            k in want ==> exists a :: LastOfAll(groups, protocols, source, n, a, k) && a.t == want[k]
  {
    var asks := AskedOrdered(groups, protocols, source, n);
    var x := LastsMeans(asks, k);
    if x >= 0 {
      var a := asks[x];
      AskedMeans(groups, protocols, source, n, a);
      forall b: Ask | b.i < n && Earlier(a, b) && AsksAt(groups, protocols, source, b.i, b.j, b.t) ensures KeyOfTarget(b.t) != k {
        AskedMeans(groups, protocols, source, n, b);
        var y :| 0 <= y < |asks| && asks[y] == b;
        assert y < x ==> Earlier(b, a);
      }
      assert LastOfAll(groups, protocols, source, n, a, k);
    } else {
      forall i, j, t | i < n && AsksAt(groups, protocols, source, i, j, t) ensures KeyOfTarget(t) != k {
        AskedMeans(groups, protocols, source, n, Ask(i, j, t));
      }
    }
  }

  /** The targets that the groups ask for, by key, each as the last to ask has it. */
  ghost predicate IsWanted(groups: seq<Option<TargetGroup>>, protocols: set<string>, source: string, want: map<Key, Target>) {
    && (forall k :: k in want ==> k == Key(want[k].ptype, want[k].region, want[k].address))
    && (forall k :: k in want ==> exists a :: LastOfAll(groups, protocols, source, |groups|, a, k) && a.t == want[k])
    && (forall i, j, t :: AsksAt(groups, protocols, source, i, j, t) ==> KeyOfTarget(t) in want)
  }

  lemma WantIsWanted(groups: seq<Option<TargetGroup>>, protocols: set<string>, source: string)
    ensures IsWanted(groups, protocols, source, Want(groups, protocols, source, |groups|))
  {
    var want := Want(groups, protocols, source, |groups|);
    forall k ensures k in want ==> exists a :: LastOfAll(groups, protocols, source, |groups|, a, k) && a.t == want[k] {
      WantMeans(groups, protocols, source, |groups|, k);
    }
    forall i, j, t | AsksAt(groups, protocols, source, i, j, t) ensures KeyOfTarget(t) in want {
      WantMeans(groups, protocols, source, |groups|, KeyOfTarget(t));
    }
    LastsKeys(Asked(groups, protocols, source, |groups|));
  }

  lemma {:induction false} LastsKeys(asks: seq<Ask>)
    ensures forall k :: k in Lasts(asks) ==> KeyOfTarget(Lasts(asks)[k]) == k
  {
    if asks != [] {
      LastsKeys(asks[..|asks| - 1]);
    }
  }

  /** What a probe measured; a sample may have no time. */
  datatype Sample = Sample(metric: string, value: real, timestamp: Option<int>)

  /** The results of a probe, of the agent and of its target. */
  function ResultsOf(me: string, t: Target, samples: seq<Sample>, now: int): seq<Result> {
    if samples == [] then [] else
      var last := samples[|samples| - 1];
      ResultsOf(me, t, samples[..|samples| - 1], now)
      + [Result(Uid(me, last.metric, t.source, t.region, t.ptype, t.address),
                if last.timestamp.Some? then last.timestamp.value else now, last.value)]
  }

  /** The results carry the samples one by one, with the names of the agent and of the target. */
  ghost predicate Carries(g: Group, me: string, t: Target, samples: seq<Sample>, now: int) {
    |g| == |samples| && forall i :: 0 <= i < |g| ==>
      && g[i].uid.worker == me && g[i].uid.metric == samples[i].metric && g[i].value == samples[i].value
      && g[i].uid.source == t.source && g[i].uid.target == t.region && g[i].uid.ptype == t.ptype
      && g[i].uid.address == t.address
      && (samples[i].timestamp == None ==> g[i].timestamp == now)
      && (forall at :: samples[i].timestamp == Some(at) ==> g[i].timestamp == at)
  }

  lemma {:induction false} ResultsCarry(me: string, t: Target, samples: seq<Sample>, now: int)
    ensures Carries(ResultsOf(me, t, samples, now), me, t, samples, now)
  {
    if samples != [] {
      ResultsCarry(me, t, samples[..|samples| - 1], now);
    }
  }

  /** What a probe stores is a group of its target, which the step system takes as produced. */
  lemma {:induction false} ResultsProduced(me: string, t: Target, samples: seq<Sample>, now: int)
    requires now > 0 && forall i :: 0 <= i < |samples| && samples[i].timestamp.Some? ==> samples[i].timestamp.value > 0
    ensures Produced(me, KeyOfTarget(t), ResultsOf(me, t, samples, now)) && |ResultsOf(me, t, samples, now)| == |samples|
  {
    if samples != [] {
      ResultsProduced(me, t, samples[..|samples| - 1], now);
    }
  }

  class LocalTarget {
    const target: Target
    var started: bool
    var stopped: bool
    var running: bool
    /** The probes submitted whose callback has not returned. */
    ghost var outstanding: nat

    constructor (target: Target, cancelled: bool)
      ensures this.target == target && !started && stopped == cancelled && Idle()
    {
      this.target := target;
      started, stopped, running, outstanding := false, cancelled, false, 0;
    }

    ghost predicate Idle()
      reads this
    {
      !running && outstanding == 0
    }

    /** At most one probe is outstanding, and `running` tells whether one is. */
    ghost predicate Valid()
      reads this
    {
      outstanding == if running then 1 else 0
    }

    method Start()
      modifies this`started
      ensures started
    {
      started := true;
    }

    method Stop()
      modifies this`stopped
      ensures stopped
    {
      stopped := true;
    }

    /** A tick: submits a probe unless one is outstanding. `accepted` is the scheduler's answer. */
    method Schedule(accepted: bool) returns (submitted: bool)
      requires Valid()
      modifies this`running, this`outstanding
      ensures Valid() && submitted == (!old(running) && accepted)
      ensures outstanding == old(outstanding) + if submitted then 1 else 0
    {
      if running {
        return false;
      }
      running := true;
      if accepted {
        outstanding := outstanding + 1;
        return true;
      }
      running := false;
      return false;
    }

    /** The callback of a probe: stores its results unless the worker was stopped or nothing was sampled. A sample
        without a time is stamped with the present one. */
    method Callback(buffer: ResultBuffer, me: string, samples: seq<Sample>, now: int)
      requires Valid() && running
      modifies this`running, this`outstanding, buffer
      ensures Valid() && !running
      ensures buffer.data == if stopped || samples == [] then old(buffer.data)
                             else old(buffer.data)[KeyOfTarget(target) := ResultsOf(me, target, samples, now)]
      ensures !stopped && samples != [] ==>
                var k := Key(target.ptype, target.region, target.address);
                k in buffer.data && Carries(buffer.data[k], me, target, samples, now)
    {
      if !stopped && |samples| > 0 {
        var results: seq<Result> := [];
        for i := 0 to |samples|
          invariant results == ResultsOf(me, target, samples[..i], now)
        {
          assert samples[..i + 1][..i] == samples[..i];
          var timestamp := match samples[i].timestamp case None => now case Some(t) => t;
          var uid := Uid(me, samples[i].metric, target.source, target.region, target.ptype, target.address);
          results := results + [Result(uid, timestamp, samples[i].value)];
        }
        assert samples[..|samples|] == samples;
        ResultsCarry(me, target, samples, now);
        buffer.Store(KeyOfTarget(target), results);
      }
      running := false;
      outstanding := outstanding - 1;
    }
  }

  /** The targets whose workers go on: wanted, and unchanged. */
  function Kept(targets: map<Key, LocalTarget>, want: map<Key, Target>): map<Key, LocalTarget> {
    map k | k in targets && k in want && targets[k].target == want[k] :: targets[k]
  }

  ghost predicate OwnKeys(targets: map<Key, LocalTarget>) {
    forall k :: k in targets ==> KeyOfTarget(targets[k].target) == k
  }

  ghost predicate Holds(targets: map<Key, LocalTarget>, w: LocalTarget) {
    KeyOfTarget(w.target) in targets && targets[KeyOfTarget(w.target)] == w
  }

  /** The map while the second loop of refresh fills it with the workers made. */
  ghost predicate Growing(before: map<Key, LocalTarget>, desired: map<Key, Target>, todo: set<Key>,
                          after: map<Key, LocalTarget>, made: set<LocalTarget>) {
    && after.Keys == before.Keys + (desired.Keys - todo)
    && (forall k :: k in before ==> after[k] == before[k])
    && (forall k :: k in after && k !in before ==> after[k] in made && after[k].target == desired[k])
    && (forall w :: w in made ==> Holds(after, w))
  }

  lemma GrowingMore(before: map<Key, LocalTarget>, desired: map<Key, Target>, todo: set<Key>,
                    after: map<Key, LocalTarget>, made: set<LocalTarget>, worker: LocalTarget)
    requires Growing(before, desired, todo, after, made)
    requires var uid := KeyOfTarget(worker.target);
             uid in todo && uid in desired && desired[uid] == worker.target && uid !in after
    ensures var uid := KeyOfTarget(worker.target);
            Growing(before, desired, todo - {uid}, after[uid := worker], made + {worker})
  {
  }

  /** In the end the workers made are those that the map has gained. */
  lemma GrowingDone(before: map<Key, LocalTarget>, desired: map<Key, Target>, after: map<Key, LocalTarget>, made: set<LocalTarget>)
    requires OwnKeys(before) && Growing(before, desired, {}, after, made) && forall w :: w in made ==> !Holds(before, w)
    requires forall k :: k in desired ==> KeyOfTarget(desired[k]) == k
    ensures OwnKeys(after) && after.Keys == before.Keys + desired.Keys
    ensures forall w: LocalTarget :: w in made <==> Holds(after, w) && !Holds(before, w)
  {
  }

  /** The workers serve exactly the wanted targets. */
  ghost predicate Serves(targets: map<Key, LocalTarget>, want: map<Key, Target>) {
    targets.Keys == want.Keys && forall k :: k in want ==> targets[k].target == want[k]
  }

  function Served(targets: map<Key, LocalTarget>): map<Key, Target> {
    map k | k in targets :: targets[k].target
  }

  lemma ServedIsWanted(targets: map<Key, LocalTarget>, groups: seq<Option<TargetGroup>>, protocols: set<string>, source: string)
    requires Serves(targets, Want(groups, protocols, source, |groups|))
    ensures IsWanted(groups, protocols, source, Served(targets))
  {
    assert Served(targets) == Want(groups, protocols, source, |groups|);
    WantIsWanted(groups, protocols, source);
  }

  /** The loop of refresh over the groups of a response. */
  method Desired(groups: seq<Option<TargetGroup>>, protocols: set<string>, source: string) returns (desired: map<Key, Target>)
    ensures desired == Want(groups, protocols, source, |groups|) && IsWanted(groups, protocols, source, desired)
  {
    desired := map[];
    for i := 0 to |groups|
      invariant desired == Want(groups, protocols, source, i)
    {
      if groups[i].Some? {
        desired := DesiredOf(groups[i].value, protocols, source, desired, i, Asked(groups, protocols, source, i));
      }
      ghost var asks := Asked(groups, protocols, source, i);
      AskedMore(groups, protocols, source, i);
      assert asks + [] == asks;
    }
    WantIsWanted(groups, protocols, source);
  }

  /** The targets of one group, over those wanted before. */
  method DesiredOf(g: TargetGroup, protocols: set<string>, source: string, before: map<Key, Target>, ghost i: int, ghost asks: seq<Ask>)
    returns (desired: map<Key, Target>)
    requires before == Lasts(asks)
    ensures desired == Lasts(asks + AsksOf(g, protocols, source, i, |g.addresses|))
  {
    desired := before;
    assert asks + [] == asks;
    if Lower(Trim(g.ptype)) in protocols {
      for j := 0 to |g.addresses|
        invariant desired == Lasts(asks + AsksOf(g, protocols, source, i, j))
      {
        var target := TargetOf(g, source, g.addresses[j]);
        LastsMore(asks, AsksOf(g, protocols, source, i, j), Ask(i, j, target));
        if target.address != "" {
          desired := desired[KeyOfTarget(target) := target];
        }
      }
    }
  }

  lemma LastsMore(asks: seq<Ask>, more: seq<Ask>, a: Ask)
    ensures Lasts(asks + (more + [a])) == Lasts(asks + more)[KeyOfTarget(a.t) := a.t]
    ensures asks + (more + []) == asks + more
  {
    assert (asks + (more + [a]))[..|asks + more|] == asks + more;
  }

  method StopAll(ws: seq<LocalTarget>, ghost all: set<LocalTarget>)
    requires forall w :: w in ws ==> w in all
    modifies all`stopped
    ensures forall w :: w in all ==> w.stopped == (old(w.stopped) || w in ws)
  {
    for i := 0 to |ws|
      invariant forall w :: w in all ==> w.stopped == (old(w.stopped) || w in ws[..i])
    {
      assert ws[i] in ws;
      ws[i].Stop();
    }
  }

  method StartAll(ws: seq<LocalTarget>, ghost all: set<LocalTarget>)
    requires forall w :: w in ws ==> w in all
    modifies all`started
    ensures forall w :: w in all ==> w.started == (old(w.started) || w in ws)
  {
    for i := 0 to |ws|
      invariant forall w :: w in all ==> w.started == (old(w.started) || w in ws[..i])
    {
      assert ws[i] in ws;
      ws[i].Start();
    }
  }

  class LocalTargetManager {
    var targets: map<Key, LocalTarget>
    var cancelled: bool
    /** Every worker ever made. */
    ghost var workers: set<LocalTarget>

    /** The workers at work, started and not stopped, are exactly those of the target map. */
    ghost predicate Valid()
      reads this, workers
    {
      && OwnKeys(targets)
      && (forall k :: k in targets ==> targets[k] in workers)
      && (forall w :: w in workers ==> w.started && (w.stopped <==> cancelled || !Holds(targets, w)))
    }

    constructor ()
      ensures Valid() && targets == map[] && !cancelled && workers == {}
    {
      targets, cancelled, workers := map[], false, {};
    }

    /** The first loop of refresh: the workers to stop leave the map. */
    method DropStale(desired: map<Key, Target>) returns (stop: seq<LocalTarget>)
      requires OwnKeys(targets)
      modifies this`targets
      ensures targets == Kept(old(targets), desired)
      ensures forall w :: w in stop <==> Holds(old(targets), w) && !Holds(targets, w)
    {
      stop := [];
      var todo := targets.Keys;
      while todo != {}
        invariant todo <= targets.Keys
        invariant targets == map k | k in old(targets) && (k in todo || k in Kept(old(targets), desired)) :: old(targets)[k]
        invariant forall w :: w in stop <==> Holds(old(targets), w) && !Holds(targets, w)
        decreases todo
      {
        var uid :| uid in todo;
        todo := todo - {uid};
        var current := targets[uid];
        if uid !in desired || current.target != desired[uid] {
          stop := stop + [current];
          targets := targets - {uid};
        }
      }
    }

    /** The second loop of refresh: a new worker for every target without one. */
    method AddMissing(desired: map<Key, Target>) returns (start: seq<LocalTarget>)
      requires OwnKeys(targets) && forall k :: k in desired ==> KeyOfTarget(desired[k]) == k
      modifies this`targets
      ensures OwnKeys(targets) && targets.Keys == old(targets.Keys) + desired.Keys
      ensures forall k :: k in old(targets) ==> targets[k] == old(targets)[k]
      ensures forall k :: k in desired && k !in old(targets) ==> fresh(targets[k]) && targets[k].target == desired[k]
      ensures forall w :: w in start <==> Holds(targets, w) && !Holds(old(targets), w)
      ensures forall w :: w in start ==> fresh(w) && !w.started && w.stopped == cancelled
    {
      var after;
      ghost var made;
      after, start, made := MakeMissing(desired);
      assert forall w :: w in made ==> !Holds(targets, w);
      GrowingDone(targets, desired, after, made);
      targets := after;
    }

    /** The loop itself: the map filled up, and the workers made. */
    method MakeMissing(desired: map<Key, Target>)
      returns (after: map<Key, LocalTarget>, start: seq<LocalTarget>, ghost made: set<LocalTarget>)
      requires forall k :: k in desired ==> KeyOfTarget(desired[k]) == k
      ensures Growing(targets, desired, {}, after, made) && fresh(made) && forall w :: w in start <==> w in made
      ensures forall w :: w in made ==> !w.started && w.stopped == cancelled
    {
      after, start, made := targets, [], {};
      var todo := desired.Keys;
      while todo != {}
        invariant todo <= desired.Keys && Growing(targets, desired, todo, after, made)
        invariant fresh(made) && forall w :: w in start <==> w in made
        invariant forall w :: w in made ==> !w.started && w.stopped == cancelled
        decreases todo
      {
        var uid :| uid in todo;
        if uid !in after {
          var worker := new LocalTarget(desired[uid], cancelled);
          GrowingMore(targets, desired, todo, after, made, worker);
          after := after[uid := worker];
          start := start + [worker];
          made := made + {worker};
        }
        todo := todo - {uid};
      }
    }

    /** The part of refresh under the lock: the map after it, and the workers to stop and to start. */
    method Exchange(desired: map<Key, Target>) returns (stop: seq<LocalTarget>, start: seq<LocalTarget>)
      requires Valid() && forall k :: k in desired ==> KeyOfTarget(desired[k]) == k
      modifies this`targets
      ensures OwnKeys(targets) && Serves(targets, desired)
      ensures forall k :: k in targets ==>
                if k in Kept(old(targets), desired) then targets[k] == old(targets)[k] else fresh(targets[k])
      ensures forall w :: w in stop ==> w in workers
      ensures forall w :: w in workers ==> (w in stop <==> Holds(old(targets), w) && !Holds(targets, w))
      ensures forall w :: w in workers && Holds(targets, w) ==> Holds(old(targets), w)
      ensures forall w :: w in start <==> Holds(targets, w) && w !in workers
      ensures forall w :: w in start ==> fresh(w) && !w.started && w.stopped == cancelled
    {
      stop := DropStale(desired);
      start := AddMissing(desired);
    }

    /** Stops and starts the workers that the exchange of the maps calls for. */
    method Settle(stop: seq<LocalTarget>, start: seq<LocalTarget>, ghost before: map<Key, LocalTarget>)
      requires OwnKeys(targets) && forall w :: w in stop ==> w in workers
      requires forall w :: w in workers ==> w.started && (w.stopped <==> cancelled || !Holds(before, w))
      requires forall w :: w in workers ==> (w in stop <==> Holds(before, w) && !Holds(targets, w))
      requires forall w :: w in workers && Holds(targets, w) ==> Holds(before, w)
      requires forall w :: w in start <==> Holds(targets, w) && w !in workers
      requires forall w :: w in start ==> w.stopped == cancelled
      modifies workers`stopped, (set w | w in start)`started, this`workers
      ensures Valid() && workers == old(workers) + set k | k in targets :: targets[k]
    {
      StopAll(stop, workers);
      StartAll(start, set w | w in start);
      assert forall k :: k in targets ==> Holds(targets, targets[k]);
      workers := workers + set k | k in targets :: targets[k];
      forall w | w in workers ensures w.started && (w.stopped <==> cancelled || !Holds(targets, w)) {
        assert w in old(workers) || w in start;
      }
    }

    /** Makes the workers serve the targets of a response, and touches no worker whose target is unchanged. */
    method Refresh(groups: seq<Option<TargetGroup>>, protocols: set<string>, source: string)
      requires Valid()
      modifies this, workers
      ensures Valid() && cancelled == old(cancelled)
      ensures Serves(targets, Want(groups, protocols, source, |groups|)) && IsWanted(groups, protocols, source, Served(targets))
      ensures forall k :: k in targets ==>
                if k in Kept(old(targets), Want(groups, protocols, source, |groups|)) then targets[k] == old(targets)[k]
                else fresh(targets[k])
      ensures workers == old(workers) + set k | k in targets :: targets[k]
    {
      var desired := Desired(groups, protocols, source);
      LastsKeys(Asked(groups, protocols, source, |groups|));
      ghost var before := targets;
      var stop, start := Exchange(desired);
      Settle(stop, start, before);
      ServedIsWanted(targets, groups, protocols, source);
    }

    /** A response that asks for what is already served changes nothing. */
    method RefreshAgain(groups: seq<Option<TargetGroup>>, protocols: set<string>, source: string)
      requires Valid() && Serves(targets, Want(groups, protocols, source, |groups|))
      modifies this, workers
      ensures Valid() && targets == old(targets) && workers == old(workers)
      ensures forall w :: w in workers ==> w.started == old(w.started) && w.stopped == old(w.stopped)
    {
      Refresh(groups, protocols, source);
    }

    /** Stops every worker, once. */
    method Stop()
      requires Valid()
      modifies this, workers
      ensures Valid() && cancelled && workers == old(workers)
      ensures targets == if old(cancelled) then old(targets) else map[]
      ensures forall w :: w in workers ==> w.stopped
    {
      if cancelled {
        return;
      }
      var all := Values(targets);
      cancelled := true;
      targets := map[];
      StopAll(all, workers);
    }
  }

  method Values(targets: map<Key, LocalTarget>) returns (all: seq<LocalTarget>)
    requires OwnKeys(targets)
    ensures forall w :: w in all <==> Holds(targets, w)
  {
    all := [];
    var todo := targets.Keys;
    while todo != {}
      invariant todo <= targets.Keys
      invariant forall w :: w in all <==> Holds(targets, w) && KeyOfTarget(w.target) !in todo
      decreases todo
    {
      var k :| k in todo;
      todo := todo - {k};
      all := all + [targets[k]];
    }
  }
}
