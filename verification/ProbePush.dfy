// The result buffer of an agent (cmd/agent/xprober/target.go) and its delivery to the collector of the
// server, as a system of steps: probes finish at any time, calls are lost, and replies are lost.

module ProbePush {
  import opened Wrappers
  import opened Collecting

  /** A target, as its results name it. */
  datatype Key = Key(ptype: string, region: string, address: string)

  type Group = seq<Result>
  type Groups = map<Key, Group>

  function KeyOf(u: Uid): Key {
    Key(u.ptype, u.target, u.address)
  }

  /** The results of one probe: all of the agent and of the target. */
  ghost predicate GroupOf(worker: string, k: Key, g: Group) {
    forall i :: 0 <= i < |g| ==> g[i].uid.worker == worker && KeyOf(g[i].uid) == k
  }

  function Sent(g: Group): seq<Option<Result>> {
    seq(|g|, i requires 0 <= i < |g| => Some(g[i]))
  }

  /** The groups one after the other, in the order in which the code meets them. */
  function Flatten(gs: Groups, order: seq<Key>): seq<Option<Result>>
    requires forall k :: k in order ==> k in gs
  {
    if order == [] then [] else Flatten(gs, order[..|order| - 1]) + Sent(gs[order[|order| - 1]])
  }

  ghost predicate OrderOf(gs: Groups, order: seq<Key>) {
    && (forall k :: k in order <==> k in gs)
    && (forall i, j :: 0 <= i < j < |order| ==> order[i] != order[j])
  }

  // ---- the buffer

  class ResultBuffer {
    var data: Groups

    constructor ()
      ensures data == map[]
    {
      data := map[];
    }

    method Store(k: Key, values: Group)
      modifies this
      ensures data == old(data)[k := values]
    {
      data := data[k := values];
    }

    method Drain() returns (drained: Groups)
      modifies this
      ensures drained == old(data) && data == map[]
    {
      drained := data;
      data := map[];
    }

    /** Puts groups back, but never over a newer one. */
    method Restore(values: Groups)
      modifies this
      ensures data == values + old(data)
    {
      var todo := values.Keys;
      while todo != {}
        invariant todo <= values.Keys
        invariant data == (values - todo) + old(data)
        decreases todo
      {
        var k :| k in todo;
        todo := todo - {k};
        if k !in data {
          data := data[k := values[k]];
        }
      }
    }
  }

  // ---- the steps

  datatype Flight = Idle | Pushing(groups: Groups, order: seq<Key>, served: bool)

  /** The agent's buffer, its push under way, the server's store and the time it was last published,
      and the newest group each target ever produced. */
  datatype Sys = Sys(buffer: Groups, flight: Flight, server: map<Uid, Result>, published: int, newest: Groups)

  datatype Step =
    | Probe(k: Key, g: Group)                        // a probe finishes
    | Start(order: seq<Key>)                         // pushProbeResults drains the buffer
    | Serve(now: int)                                // the server handles the call
    | Reply                                          // the reply arrives
    | Fail                                           // the call fails, before or after it was served
    | Foreign(rs: seq<Option<Result>>, now: int)     // another agent pushes
    | Publish(now: int)                              // the server publishes and expires

  /** The results of the agent carry the time of the probe. */
  ghost predicate Produced(me: string, k: Key, g: Group) {
    GroupOf(me, k, g) && forall i :: 0 <= i < |g| ==> g[i].timestamp > 0
  }

  ghost predicate FromOthers(me: string, rs: seq<Option<Result>>) {
    forall i :: 0 <= i < |rs| && rs[i].Some? ==> rs[i].value.uid.worker != me
  }

  ghost predicate Init(s: Sys) {
    s.buffer == map[] && s.flight == Idle && s.newest == map[]
  }

  ghost predicate Takes(me: string, s: Sys, step: Step, s': Sys) {
    match step
    case Probe(k, g) =>
      Produced(me, k, g) && s' == s.(buffer := s.buffer[k := g], newest := s.newest[k := g])
    case Start(order) =>
      && s.flight.Idle? && OrderOf(s.buffer, order)
      && s' == s.(buffer := map[], flight := if Flatten(s.buffer, order) == [] then Idle else Pushing(s.buffer, order, false))
    case Serve(now) =>
      && s.flight.Pushing? && !s.flight.served && (forall k :: k in s.flight.order ==> k in s.flight.groups)
      && StoreStep(s.server, Flatten(s.flight.groups, s.flight.order), now, s'.server)
      && s' == s.(server := s'.server, flight := s.flight.(served := true))
    case Reply =>
      && s.flight.Pushing? && s.flight.served && (forall k :: k in s.flight.order ==> k in s.flight.groups)
      && var sent := Flatten(s.flight.groups, s.flight.order);
         s' == s.(flight := Idle, buffer := if AcceptedCount(sent) == |sent| then s.buffer else s.flight.groups + s.buffer)
    case Fail =>
      s.flight.Pushing? && s' == s.(flight := Idle, buffer := s.flight.groups + s.buffer)
    case Foreign(rs, now) =>
      FromOthers(me, rs) && StoreStep(s.server, rs, now, s'.server) && s' == s.(server := s'.server)
    case Publish(now) =>
      s.published <= now && s' == s.(published := now, server := s.server - Expired(s.server, now))
  }

  /** The server holds the samples of the group, but for those that have expired since. */
  ghost predicate Applied(s: Sys, g: Group) {
    forall u :: LastOf(Sent(g), u).Some? ==>
      var r := LastOf(Sent(g), u).value;
      if u in s.server then s.server[u] == r else !Live(r, s.published)
  }

  ghost predicate Inv(me: string, s: Sys) {
    && (forall k :: k in s.newest ==> Produced(me, k, s.newest[k]))
    && (forall k :: k in s.buffer ==> k in s.newest && s.buffer[k] == s.newest[k])
    && (s.flight.Pushing? ==>
          && OrderOf(s.flight.groups, s.flight.order)
          && forall k :: k in s.flight.groups ==>
               && k in s.newest && Produced(me, k, s.flight.groups[k])
               && (k !in s.buffer ==> s.flight.groups[k] == s.newest[k])
               && (s.flight.served ==> Applied(s, s.flight.groups[k])))
    && (forall k :: k in s.newest ==>
          k in s.buffer || (s.flight.Pushing? && k in s.flight.groups) || Applied(s, s.newest[k]))
  }

  lemma {:induction false} LastOfConcat(a: seq<Option<Result>>, b: seq<Option<Result>>, u: Uid)
    ensures LastOf(a + b, u) == if LastOf(b, u).Some? then LastOf(b, u) else LastOf(a, u)
  {
    if b == [] {
      assert a + b == a;
    } else {
      assert (a + b)[..|a + b| - 1] == a + b[..|b| - 1];
      LastOfConcat(a, b[..|b| - 1], u);
    }
  }

  lemma {:induction false} NoneOf(rs: seq<Option<Result>>, u: Uid)
    requires forall i :: 0 <= i < |rs| && rs[i].Some? ==> rs[i].value.uid != u
    ensures LastOf(rs, u) == None
  {
    if rs != [] {
      NoneOf(rs[..|rs| - 1], u);
    }
  }

  /** Of a flattened push, only the target's own group counts for a key. */
  lemma {:induction false} LastOfFlatten(me: string, gs: Groups, order: seq<Key>, u: Uid)
    requires forall k :: k in order ==> k in gs && GroupOf(me, k, gs[k])
    requires forall i, j :: 0 <= i < j < |order| ==> order[i] != order[j]
    ensures LastOf(Flatten(gs, order), u) == if KeyOf(u) in order then LastOf(Sent(gs[KeyOf(u)]), u) else None
  {
    if order != [] {
      var init, last := order[..|order| - 1], order[|order| - 1];
      LastOfFlatten(me, gs, init, u);
      LastOfConcat(Flatten(gs, init), Sent(gs[last]), u);
      assert order == init + [last];
      if KeyOf(u) != last {
        NoneOf(Sent(gs[last]), u);
      } else {
        assert last !in init;
      }
    }
  }

  /** What the server has just stored of a push is applied. */
  lemma ServedIsApplied(me: string, s: Sys, now: int, s': Sys, k: Key)
    requires Inv(me, s) && Takes(me, s, Serve(now), s') && k in s.flight.groups
    ensures Applied(s', s.flight.groups[k])
  {
    var g := s.flight.groups[k];
    forall u | LastOf(Sent(g), u).Some?
      ensures u in s'.server && s'.server[u] == LastOf(Sent(g), u).value
    {
      LastOfIsOwn(Sent(g), u);
      LastOfFlatten(me, s.flight.groups, s.flight.order, u);
    }
  }

  /** What is applied stays applied, unless a push of the same target is served. */
  lemma AppliedKept(me: string, s: Sys, step: Step, s': Sys, k: Key, g: Group)
    requires Inv(me, s) && Takes(me, s, step, s') && Produced(me, k, g) && Applied(s, g)
    requires step.Serve? ==> k !in s.flight.groups
    ensures Applied(s', g)
  {
    forall u | LastOf(Sent(g), u).Some?
      ensures var r := LastOf(Sent(g), u).value;
              if u in s'.server then s'.server[u] == r else !Live(r, s'.published)
    {
      LastOfIsOwn(Sent(g), u);
      assert u.worker == me && KeyOf(u) == k;
      match step
      case Serve(now) =>
        LastOfFlatten(me, s.flight.groups, s.flight.order, u);
      case Foreign(rs, now) =>
        NoneOf(rs, u);
      case _ =>
    }
  }

  lemma InvKeptByServe(me: string, s: Sys, now: int, s': Sys)
    requires Inv(me, s) && Takes(me, s, Serve(now), s')
    ensures Inv(me, s')
  {
    forall k | k in s.flight.groups
      ensures Applied(s', s.flight.groups[k])
    {
      ServedIsApplied(me, s, now, s', k);
    }
    forall k | k in s.newest && k !in s.buffer && k !in s.flight.groups
      ensures Applied(s', s.newest[k])
    {
      AppliedKept(me, s, Serve(now), s', k, s.newest[k]);
    }
  }

  lemma InvKept(me: string, s: Sys, step: Step, s': Sys)
    requires Inv(me, s) && Takes(me, s, step, s')
    ensures Inv(me, s')
  {
    if step.Serve? {
      InvKeptByServe(me, s, step.now, s');
    } else {
      forall k, g | Produced(me, k, g) && Applied(s, g)
        ensures Applied(s', g)
      {
        AppliedKept(me, s, step, s', k, g);
      }
      if step.Start? {
        EmptyFlatten(me, s.buffer, step.order);
      }
    }
  }

  /** A push with nothing to send is given up; its groups were empty. */
  lemma {:induction false} EmptyFlatten(me: string, gs: Groups, order: seq<Key>)
    requires forall k :: k in order ==> k in gs
    ensures Flatten(gs, order) == [] ==> forall k :: k in order ==> gs[k] == []
  {
    if order != [] {
      EmptyFlatten(me, gs, order[..|order| - 1]);
      assert order == order[..|order| - 1] + [order[|order| - 1]];
      assert |Sent(gs[order[|order| - 1]])| == |gs[order[|order| - 1]]|;
    }
  }

  ghost predicate Run(me: string, states: seq<Sys>, steps: seq<Step>) {
    && |states| == |steps| + 1 && Init(states[0])
    && forall i :: 0 <= i < |steps| ==> Takes(me, states[i], steps[i], states[i + 1])
  }

  /** The newest group of a target waits in the buffer, is under way, or is what the server holds of the target. */
  ghost predicate Safe(s: Sys, k: Key)
    requires k in s.newest
  {
    || (k in s.buffer && s.buffer[k] == s.newest[k])
    || (s.flight.Pushing? && k in s.flight.groups && s.flight.groups[k] == s.newest[k])
    || Applied(s, s.newest[k])
  }

  /** No latest sample is lost on any run. */
  lemma {:induction false} NoSampleLost(me: string, states: seq<Sys>, steps: seq<Step>, i: nat)
    requires Run(me, states, steps) && i < |states|
    ensures Inv(me, states[i])
    ensures forall k :: k in states[i].newest ==> Safe(states[i], k)
    ensures forall k :: k in states[i].buffer ==> k in states[i].newest && states[i].buffer[k] == states[i].newest[k]
  {
    if i > 0 {
      NoSampleLost(me, states, steps, i - 1);
      InvKept(me, states[i - 1], steps[i - 1], states[i]);
    }
  }

  /** Once nothing waits and nothing is under way, the server holds the newest samples of every target. */
  lemma AllDelivered(me: string, states: seq<Sys>, steps: seq<Step>, i: nat)
    requires Run(me, states, steps) && i < |states|
    requires states[i].buffer == map[] && states[i].flight.Idle?
    ensures forall k :: k in states[i].newest ==> Applied(states[i], states[i].newest[k])
  {
    NoSampleLost(me, states, steps, i);
  }

  /** The last probe of a target so far gave the group. */
  ghost predicate LastProbe(steps: seq<Step>, j: nat, i: nat, k: Key, g: Group) {
    j < i <= |steps| && steps[j] == Probe(k, g) && forall l :: j < l < i && steps[l].Probe? ==> steps[l].k != k
  }

  lemma {:induction false} LastProbeIsNewest(me: string, states: seq<Sys>, steps: seq<Step>, j: nat, i: nat, k: Key, g: Group)
    requires Run(me, states, steps) && LastProbe(steps, j, i, k, g)
    ensures k in states[i].newest && states[i].newest[k] == g
  {
    if j < i - 1 {
      LastProbeIsNewest(me, states, steps, j, i - 1, k, g);
    }
    assert Takes(me, states[i - 1], steps[i - 1], states[i]);
  }

  /** What the last probe of a target gave is at the server once nothing waits, or is older than five minutes: every
      sample with a metric name, where the probe gave no later one of the same key. */
  lemma ProbeDelivered(me: string, states: seq<Sys>, steps: seq<Step>, j: nat, i: nat, k: Key, g: Group, m: nat)
    requires Run(me, states, steps) && LastProbe(steps, j, i, k, g)
    requires states[i].buffer == map[] && states[i].flight.Idle?
    requires m < |g| && Named(Some(g[m])) && forall n :: m < n < |g| ==> g[n].uid != g[m].uid
    ensures var s := states[i];
            if g[m].uid in s.server then s.server[g[m].uid] == g[m]
            else s.published - g[m].timestamp * 1_000_000_000 > 300_000_000_000
  {
    AllDelivered(me, states, steps, i);
    LastProbeIsNewest(me, states, steps, j, i, k, g);
    LatestIsLast(Sent(g), m);
  }

  // ---- the code of one push takes these steps

  /** What became of the call: never served, served but the reply lost, or answered. */
  datatype Outcome = Lost | ReplyLost | Answered

  /** The groups of the map one after the other, in any order. */
  method FlattenAll(gs: Groups) returns (results: seq<Option<Result>>, ghost order: seq<Key>)
    ensures OrderOf(gs, order) && results == Flatten(gs, order)
  {
    results, order := [], [];
    var todo := gs.Keys;
    while todo != {}
      invariant todo <= gs.Keys && (forall k :: k in order <==> k in gs && k !in todo)
      invariant forall i, j :: 0 <= i < j < |order| ==> order[i] != order[j]
      invariant results == Flatten(gs, order)
      decreases todo
    {
      var k :| k in todo;
      todo := todo - {k};
      assert (order + [k])[..|order|] == order;
      results := results + Sent(gs[k]);
      order := order + [k];
    }
  }

  /** The state seen by a push that nothing interrupts. */
  ghost function Seen(buffer: Groups, server: map<Uid, Result>, published: int, newest: Groups): Sys {
    Sys(buffer, Idle, server, published, newest)
  }

  /** A push that nothing interrupts: drained from s0 as s1, served or not as s2, and ended. */
  ghost predicate PushTakes(me: string, s0: Sys, order: seq<Key>, s1: Sys, s2: Sys, now: int, outcome: Outcome, end: Sys) {
    && Takes(me, s0, Start(order), s1)
    && if s1.flight.Idle? then end == s1 else
         && (if outcome == Lost then s2 == s1 else Takes(me, s1, Serve(now), s2))
         && Takes(me, s2, if outcome == Answered then Reply else Fail, end)
  }

  lemma {:induction false} AcceptedAll(rs: seq<Option<Result>>)
    ensures AcceptedCount(rs) <= |rs|
    ensures AcceptedCount(rs) == |rs| <==> forall r :: r in rs ==> Accepted(r)
  {
    if rs != [] {
      var init, last := rs[..|rs| - 1], rs[|rs| - 1];
      AcceptedAll(init);
      assert rs == init + [last];
    }
  }

  lemma {:induction false} FlattenMeans(gs: Groups, order: seq<Key>, r: Option<Result>)
    requires forall k :: k in order ==> k in gs
    ensures r in Flatten(gs, order) <==> exists k :: k in order && r in Sent(gs[k])
  {
    if order != [] {
      var init, last := order[..|order| - 1], order[|order| - 1];
      FlattenMeans(gs, init, r);
      assert order == init + [last];
    }
  }

  ghost predicate AllEmpty(gs: Groups) {
    forall k :: k in gs ==> gs[k] == []
  }

  ghost predicate AllAccepted(gs: Groups) {
    forall k, r :: k in gs && r in gs[k] ==> Accepted(Some(r))
  }

  /** The groups wait again unless there was nothing to send, or the answer counts every sample. */
  ghost predicate WaitsAfter(had: Groups, outcome: Outcome, after: Groups) {
    after == if AllEmpty(had) || (outcome == Answered && AllAccepted(had)) then map[] else had
  }

  lemma SentMeans(g: Group, r: Option<Result>)
    ensures r in Sent(g) <==> r.Some? && r.value in g
  {
    if r.Some? && r.value in g {
      var i :| 0 <= i < |g| && g[i] == r.value;
      assert Sent(g)[i] == r;
    }
  }

  lemma InFlatten(gs: Groups, order: seq<Key>, k: Key, r: Result)
    requires OrderOf(gs, order) && k in gs && r in gs[k]
    ensures Some(r) in Flatten(gs, order)
  {
    SentMeans(gs[k], Some(r));
    FlattenMeans(gs, order, Some(r));
  }

  lemma OutOfFlatten(gs: Groups, order: seq<Key>, r: Option<Result>) returns (k: Key)
    requires OrderOf(gs, order) && r in Flatten(gs, order)
    ensures k in gs && r.Some? && r.value in gs[k]
  {
    FlattenMeans(gs, order, r);
    k :| k in order && r in Sent(gs[k]);
    SentMeans(gs[k], r);
  }

  lemma FlattenAccepted(gs: Groups, order: seq<Key>)
    requires OrderOf(gs, order)
    ensures AcceptedCount(Flatten(gs, order)) == |Flatten(gs, order)| <==> AllAccepted(gs)
  {
    var rs := Flatten(gs, order);
    AcceptedAll(rs);
    forall k, r | k in gs && r in gs[k] ensures Some(r) in rs {
      InFlatten(gs, order, k, r);
    }
    if AllAccepted(gs) {
      forall r | r in rs ensures Accepted(r) {
        var k := OutOfFlatten(gs, order, r);
      }
    }
  }

  lemma FlattenEmpty(gs: Groups, order: seq<Key>)
    requires OrderOf(gs, order)
    ensures Flatten(gs, order) == [] <==> AllEmpty(gs)
  {
    var rs := Flatten(gs, order);
    if rs != [] {
      var k := OutOfFlatten(gs, order, rs[0]);
    } else {
      forall k | k in gs ensures gs[k] == [] {
        if gs[k] != [] {
          InFlatten(gs, order, k, gs[k][0]);
        }
      }
    }
  }

  lemma PushReturns(me: string, s0: Sys, order: seq<Key>, s1: Sys, s2: Sys, now: int, outcome: Outcome, end: Sys)
    requires PushTakes(me, s0, order, s1, s2, now, outcome, end)
    ensures var sent := Flatten(s0.buffer, order);
            end.buffer == if sent == [] || (outcome == Answered && AcceptedCount(sent) == |sent|) then map[] else s0.buffer
  {
    if Flatten(s0.buffer, order) != [] {
      assert s2.flight.Pushing? && s2.flight.groups == s0.buffer && s2.flight.order == order && s2.buffer == map[];
      assert s0.buffer + map[] == s0.buffer;
    }
  }

  /** What the steps of one push come to. */
  lemma PushEnds(me: string, s0: Sys, order: seq<Key>, s1: Sys, s2: Sys, now: int, outcome: Outcome, end: Sys)
    requires PushTakes(me, s0, order, s1, s2, now, outcome, end)
    ensures WaitsAfter(s0.buffer, outcome, end.buffer)
  {
    PushReturns(me, s0, order, s1, s2, now, outcome, end);
    FlattenEmpty(s0.buffer, order);
    FlattenAccepted(s0.buffer, order);
  }

  method PushProbeResults(buffer: ResultBuffer, server: Collector, outcome: Outcome, now: int,
                          ghost me: string, ghost published: int, ghost newest: Groups)
    returns (ghost order: seq<Key>, ghost s1: Sys, ghost s2: Sys)
    modifies buffer, server`results
    ensures PushTakes(me, Seen(old(buffer.data), old(server.results), published, newest), order, s1, s2, now, outcome,
                      Seen(buffer.data, server.results, published, newest))
    ensures WaitsAfter(old(buffer.data), outcome, buffer.data)
  {
    ghost var s0 := Seen(buffer.data, server.results, published, newest);
    var drained := buffer.Drain();
    var results;
    results, order := FlattenAll(drained);
    s1 := s0.(buffer := map[], flight := if results == [] then Idle else Pushing(drained, order, false));
    s2 := s1;
    if |results| == 0 {
      PushEnds(me, s0, order, s1, s2, now, outcome, Seen(buffer.data, server.results, published, newest));
      return;
    }
    var response := None;
    if outcome != Lost {
      var n := server.Store(results, now);
      response := if outcome == Answered then Some(n) else None;
      s2 := s1.(server := server.results, flight := s1.flight.(served := true));
    }
    if response.None? || response.value != |results| {
      buffer.Restore(drained);
    }
    PushEnds(me, s0, order, s1, s2, now, outcome, Seen(buffer.data, server.results, published, newest));
  }
}
