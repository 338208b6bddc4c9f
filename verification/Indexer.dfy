// HostIndex.FlushIndex of cmd/server/indexer/manager.go: the index of a list of hosts, end to end.

module Indexer {
  import opened MemIndex
  import opened Matchers
  import opened Head
  import opened Querier
  import opened TreePaths
  import Stree
  import opened ServiceTree

  /** A host row as read from the database, its columns already decoded to text. */
  datatype Host = Host(id: nat, hash: string, columns: map<string, string>, privateIps: seq<string>, publicIps: seq<string>)

  const PRIVATE_IP := "private_ip"
  const PUBLIC_IP := "public_ip"

  /** The labels under which a host is to be found. */
  ghost predicate HasLabel(h: Host, l: Label) {
    || (l.name in h.columns && h.columns[l.name] == l.value)
    || (l.name == PRIVATE_IP && l.value in h.privateIps)
    || (l.name == PUBLIC_IP && l.value in h.publicIps)
  }

  /** mapTolsets: the pairs of a map, in any order. */
  method MapToLsets(m: map<string, string>) returns (lset: seq<Label>)
    ensures forall l :: l in lset <==> l.name in m && m[l.name] == l.value
  {
    lset := [];
    var names := m.Keys;
    while names != {}
      invariant names <= m.Keys
      invariant forall l :: l in lset <==> l.name in m && l.name !in names && m[l.name] == l.value
      decreases names
    {
      var k :| k in names;
      names := names - {k};
      lset := lset + [Label(k, m[k])];
    }
  }

  ghost predicate Stands(log: seq<Op>, l: Label, id: nat) {
    Standing(log, l, id) > 0
  }

  /** The id has come to stand under the labels and the key of all postings; nothing else has changed. */
  ghost predicate Grown(before: seq<Op>, after: seq<Op>, id: nat, ls: seq<Label>) {
    forall l, i :: Stands(after, l, i) <==> Stands(before, l, i) || (i == id && (l in ls || l == ALL_POSTINGS_KEY))
  }

  lemma GrownOne(log: seq<Op>, id: nat, ls: seq<Label>)
    ensures Grown(log, log + [AddOp(id, ls)], id, ls)
  {
    var after := log + [AddOp(id, ls)];
    assert after[..|after| - 1] == log;
  }

  lemma GrownTwice(a: seq<Op>, b: seq<Op>, c: seq<Op>, id: nat, ls: seq<Label>, ms: seq<Label>)
    requires Grown(a, b, id, ls) && Grown(b, c, id, ms)
    ensures Grown(a, c, id, ls + ms)
  {
    forall l, i
      ensures Stands(c, l, i) <==> Stands(a, l, i) || (i == id && (l in ls + ms || l == ALL_POSTINGS_KEY))
    {
      assert Stands(c, l, i) <==> Stands(b, l, i) || (i == id && (l in ms || l == ALL_POSTINGS_KEY));
    }
  }

  function Named(name: string, vals: seq<string>): (ls: seq<Label>)
    ensures |ls| == |vals|
  {
    seq(|vals|, i requires 0 <= i < |vals| => Label(name, vals[i]))
  }

  method AddAddress(ix: HeadIndexReader, h: Host, name: string, ip: string, ghost log0: seq<Op>, ghost ls: seq<Label>)
    requires ix.Valid() && Grown(log0, ix.postings.log, h.id, ls)
    modifies ix, ix.postings
    ensures ix.Valid() && ix.postings == old(ix.postings) && Grown(log0, ix.postings.log, h.id, ls + [Label(name, ip)])
  {
    ghost var log := ix.postings.log;
    var lset := MapToLsets(map[name := ip]);
    ix.GetOrCreateWithID(h.id, h.hash, lset);
    GrownOne(log, h.id, lset);
    GrownTwice(log0, log, ix.postings.log, h.id, ls, lset);
    GrownSame(log0, ix.postings.log, h.id, ls + lset, ls + [Label(name, ip)]);
  }

  /** One call of GetOrCreateWithID for each address, as the two inner loops of FlushIndex make it. */
  method AddAddresses(ix: HeadIndexReader, h: Host, name: string, ips: seq<string>, ghost log0: seq<Op>, ghost ls: seq<Label>)
    requires ix.Valid() && Grown(log0, ix.postings.log, h.id, ls)
    modifies ix, ix.postings
    ensures ix.Valid() && ix.postings == old(ix.postings) && Grown(log0, ix.postings.log, h.id, ls + Named(name, ips))
  {
    ghost var done := ls;
    for k := 0 to |ips|
      invariant ix.Valid() && ix.postings == old(ix.postings)
      invariant done == ls + Named(name, ips[..k]) && Grown(log0, ix.postings.log, h.id, done)
    {
      AddAddress(ix, h, name, ips[k], log0, done);
      NamedSnoc(name, ips, k);
      done := done + [Label(name, ips[k])];
    }
    assert ips[..|ips|] == ips;
  }

  lemma NamedSnoc(name: string, ips: seq<string>, k: nat)
    requires k < |ips|
    ensures Named(name, ips[..k + 1]) == Named(name, ips[..k]) + [Label(name, ips[k])]
  {
  }

  lemma GrownSame(a: seq<Op>, b: seq<Op>, id: nat, ls: seq<Label>, ms: seq<Label>)
    requires Grown(a, b, id, ls) && forall l :: l in ls <==> l in ms
    ensures Grown(a, b, id, ms)
  {
  }

  method AddHost(ix: HeadIndexReader, h: Host)
    requires ix.Valid()
    modifies ix, ix.postings
    ensures ix.Valid() && ix.postings == old(ix.postings)
    ensures forall l, i :: Stands(ix.postings.log, l, i) <==>
              Stands(old(ix.postings.log), l, i) || (i == h.id && (HasLabel(h, l) || l == ALL_POSTINGS_KEY))
  {
    ghost var log0 := ix.postings.log;
    var lset := MapToLsets(h.columns);
    ix.GetOrCreateWithID(h.id, h.hash, lset);
    GrownOne(log0, h.id, lset);
    ghost var log1 := ix.postings.log;
    var tags := MapToLsets(map[]);
    ix.GetOrCreateWithID(h.id, h.hash, tags);
    GrownOne(log1, h.id, tags);
    GrownTwice(log0, log1, ix.postings.log, h.id, lset, tags);
    ghost var ls := lset + tags;
    AddAddresses(ix, h, PRIVATE_IP, h.privateIps, log0, ls);
    AddAddresses(ix, h, PUBLIC_IP, h.publicIps, log0, ls + Named(PRIVATE_IP, h.privateIps));
    LabelsOfHost(h, lset, tags);
  }

  lemma LabelsOfHost(h: Host, lset: seq<Label>, tags: seq<Label>)
    requires forall l :: l in lset <==> l.name in h.columns && h.columns[l.name] == l.value
    requires forall l :: l !in tags
    ensures forall l :: l in lset + tags + Named(PRIVATE_IP, h.privateIps) + Named(PUBLIC_IP, h.publicIps) <==> HasLabel(h, l)
  {
    InNamed(PRIVATE_IP, h.privateIps);
    InNamed(PUBLIC_IP, h.publicIps);
  }

  lemma InNamed(name: string, vals: seq<string>)
    ensures forall l :: l in Named(name, vals) <==> l.name == name && l.value in vals
  {
    forall l: Label | l.name == name && l.value in vals ensures l in Named(name, vals) {
      var i :| 0 <= i < |vals| && vals[i] == l.value;
      assert Named(name, vals)[i] == l;
    }
  }

  /** Some host of the list has the id, and the label unless that is the key of all postings. */
  ghost predicate Listed(hosts: seq<Host>, l: Label, id: nat) {
    exists k :: 0 <= k < |hosts| && hosts[k].id == id && (HasLabel(hosts[k], l) || l == ALL_POSTINGS_KEY)
  }

  ghost predicate IndexOf(t: Table, hosts: seq<Host>) {
    forall l, id :: id in Lookup(t, l) <==> Listed(hosts, l, id)
  }

  /** The dotted path of the host in the service tree. */
  function Column(h: Host, name: string): string {
    if name in h.columns then h.columns[name] else ""
  }

  function NodeOf(h: Host): string {
    Column(h, "stree_group") + "." + Column(h, "stree_product") + "." + Column(h, "stree_app")
  }

  /** The row has a group, a product and an application whose names a path can carry. */
  predicate Placed(h: Host) {
    forall c :: c in {"stree_group", "stree_product", "stree_app"} ==>
      c in h.columns && h.columns[c] != "" && '.' !in h.columns[c]
  }

  function NamesOf(h: Host): seq<string>
    requires Placed(h)
  {
    [h.columns["stree_group"], h.columns["stree_product"], h.columns["stree_app"]]
  }

  /** The path of such a row is its group, its product and its application. */
  lemma NodeParts(h: Host)
    requires Placed(h)
    ensures Split(NodeOf(h)) == [h.columns["stree_group"], h.columns["stree_product"], h.columns["stree_app"]]
    ensures "" !in Split(NodeOf(h))
  {
    var parts := [h.columns["stree_group"], h.columns["stree_product"], h.columns["stree_app"]];
    assert Dotted(parts[2..]) == parts[2] && Dotted(parts[1..]) == parts[1] + "." + parts[2];
    assert Dotted(parts) == parts[0] + "." + (parts[1] + "." + parts[2]);
    assert NodeOf(h) == Dotted(parts);
    SplitDotted(parts);
  }

  /** The shard that an indexer is set to serve; with modulus 0 it serves all ids. */
  predicate InShard(id: int, modulus: int, num: int) {
    modulus == 0 || id % modulus == num
  }

  /** The ids that FlushIndex asks for, given the number of rows. */
  predicate AskedFor(id: int, total: nat, modulus: int, num: int) {
    1 <= id <= total + 1 && InShard(id, modulus, num)
  }

  method AskedIds(total: nat, modulus: int, num: int) returns (ids: seq<int>)
    ensures forall i :: i in ids <==> AskedFor(i, total, modulus, num)
    ensures forall i :: i in ids <==> 1 <= i <= total + 1 && (modulus == 0 || i % modulus == num)
  {
    ids := [];
    for i := 1 to total + 2
      invariant forall k :: k in ids <==> k < i && AskedFor(k, total, modulus, num)
    {
      if modulus == 0 {
        ids := ids + [i];
      } else if i % modulus == num {
        ids := ids + [i];
      }
    }
  }

  /** The rows of the table that are asked for. */
  function RowsOf(table: seq<Host>, total: nat, modulus: int, num: int): (rows: seq<Host>)
    ensures forall h :: h in rows <==> h in table && 1 <= h.id <= total + 1 && (modulus == 0 || h.id % modulus == num)
  {
    if table == [] then [] else
      var last := table[|table| - 1];
      RowsOf(table[..|table| - 1], total, modulus, num) + if AskedFor(last.id, total, modulus, num) then [last] else []
  }

  /** The query for the rows with the given ids. */
  method RowsWithIds(table: seq<Host>, ids: seq<int>, ghost total: nat, ghost modulus: int, ghost num: int)
    returns (rows: seq<Host>)
    requires forall i :: i in ids <==> AskedFor(i, total, modulus, num)
    ensures rows == RowsOf(table, total, modulus, num)
  {
    rows := [];
    for k := 0 to |table|
      invariant rows == RowsOf(table[..k], total, modulus, num)
    {
      assert table[..k + 1][..k] == table[..k];
      if table[k].id in ids {
        rows := rows + [table[k]];
      }
    }
    assert table[..|table|] == table;
  }

  /** The numbers of the shards; with modulus 0 every number is set to serve all ids. */
  predicate ShardNumber(num: int, modulus: int) {
    modulus == 0 || 0 <= num < if modulus < 0 then -modulus else modulus
  }

  /** Some shard indexes the row. */
  ghost predicate Covered(table: seq<Host>, total: nat, modulus: int, h: Host) {
    exists num :: ShardNumber(num, modulus) && h in RowsOf(table, total, modulus, num)
  }

  /** Every row is indexed by some shard iff no id lies beyond the number of rows and one. */
  lemma RowsCovered(table: seq<Host>, total: nat, modulus: int)
    requires forall h :: h in table ==> h.id > 0
    ensures (forall h :: h in table ==> Covered(table, total, modulus, h)) <==> forall h :: h in table ==> h.id <= total + 1
  {
    forall h | h in table ensures Covered(table, total, modulus, h) <==> h.id <= total + 1 {
      var num := if modulus == 0 then 0 else h.id % modulus;
      assert ShardNumber(num, modulus);
      assert h in RowsOf(table, total, modulus, num) <==> h.id <= total + 1;
    }
  }

  /** No row is indexed by two shards. */
  lemma ShardsApart(table: seq<Host>, total: nat, modulus: int, m: int, n: int, h: Host)
    requires modulus != 0 && h in RowsOf(table, total, modulus, m) && h in RowsOf(table, total, modulus, n)
    ensures m == n
  {
  }

  class HostIndex {
    var ir: HeadIndexReader
    const modulus: int
    const num: int

    constructor (modulus: int, num: int)
      ensures fresh(ir) && fresh(ir.postings) && ir.Valid() && this.modulus == modulus && this.num == num
    {
      ir := new HeadIndexReader();
      this.modulus, this.num := modulus, num;
    }

    /** Builds a fresh index of the rows of the shard, swaps it in, and puts their paths into the service tree.
        Nothing happens when the rows cannot be read, nor when no id is asked for, which the query refuses. */
    method FlushIndex(readable: bool, table: seq<Host>, tree: Tree)
      requires ir.Valid() && Stree.Sound(tree.Now())
      modifies ir, tree
      ensures ir == old(ir) && ir.Valid() && Stree.Sound(tree.Now())
      ensures var rows := RowsOf(table, |table|, modulus, num);
              if readable && exists i :: AskedFor(i, |table|, modulus, num)
              then IndexOf(ir.postings.m, rows) && TreeHolds(old(tree.rows), tree.rows, rows)
                   && PathsIn(old(tree.rows), tree.rows, rows)
              else ir.postings == old(ir.postings) && ir.postings.m == old(ir.postings.m) && tree.rows == old(tree.rows)
    {
      if !readable {
        return;
      }
      var ids := AskedIds(|table|, modulus, num);
      if |ids| == 0 {
        return;
      }
      assert AskedFor(ids[0], |table|, modulus, num);
      var rows := RowsWithIds(table, ids, |table|, modulus, num);
      var thisH := Build(rows);
      ir.Reset(thisH);
      AddPaths(tree, rows);
    }
  }

  /** The tree keeps what it held and holds the paths of the rows, where they have three names that are not empty; when
      no row has an empty name in its path nothing else has come in. */
  ghost predicate TreeHolds(before: map<nat, Stree.Row>, after: map<nat, Stree.Row>, rows: seq<Host>) {
    && Stree.Linked(before) && Stree.Linked(after)
    && (forall x :: Stree.Has(before, x) ==> Stree.Has(after, x))
    && (forall h :: h in rows && |Split(NodeOf(h))| == 3 && "" !in Split(NodeOf(h)) ==> InTree(after, NodeOf(h)))
    && ((forall h :: h in rows ==> "" !in Split(NodeOf(h))) ==>
          forall s :: InTree(after, s) ==> InTree(before, s) || exists h :: h in rows && s == NodeOf(h))
  }

  /** The tree has the path of every row that has one; when all have one, no other application has come in. */
  ghost predicate PathsIn(before: map<nat, Stree.Row>, after: map<nat, Stree.Row>, rows: seq<Host>)
    requires Stree.Linked(before) && Stree.Linked(after)
  {
    && (forall h :: h in rows && Placed(h) ==> Stree.Has(after, NamesOf(h)))
    && ((forall h :: h in rows ==> Placed(h)) ==>
          forall x :: |x| == 3 && Stree.Has(after, x) ==>
            (Stree.Has(before, x) || exists h :: h in rows && x == NamesOf(h)))
  }

  lemma PathsOfTree(before: map<nat, Stree.Row>, after: map<nat, Stree.Row>, rows: seq<Host>)
    requires TreeHolds(before, after, rows)
    ensures PathsIn(before, after, rows)
  {
    forall h | h in rows && Placed(h) ensures Split(NodeOf(h)) == NamesOf(h) && "" !in Split(NodeOf(h)) {
      NodeParts(h);
    }
    if forall h :: h in rows ==> Placed(h) {
      forall x | |x| == 3 && Stree.Has(after, x) && !Stree.Has(before, x)
        ensures exists h :: h in rows && x == NamesOf(h)
      {
        NewPath(before, after, rows, x);
      }
    }
  }

  lemma NewPath(before: map<nat, Stree.Row>, after: map<nat, Stree.Row>, rows: seq<Host>, x: seq<string>)
    requires TreeHolds(before, after, rows) && forall h :: h in rows ==> "" !in Split(NodeOf(h))
    requires |x| == 3 && Stree.Has(after, x) && !Stree.Has(before, x)
    ensures exists h :: h in rows && x == Split(NodeOf(h))
  {
    SplitDotted(x);
    assert InTree(after, Dotted(x)) && !InTree(before, Dotted(x));
  }

  /** The tree after some of the paths have been added. */
  ghost predicate Adding(before: map<nat, Stree.Row>, now: map<nat, Stree.Row>, all: set<string>, done: set<string>) {
    && Stree.Linked(before) && Stree.Linked(now)
    && (forall x :: Stree.Has(before, x) ==> Stree.Has(now, x))
    && (forall n :: n in done && |Split(n)| == 3 && "" !in Split(n) ==> InTree(now, n))
    && ((forall n :: n in all ==> "" !in Split(n)) ==> forall s :: InTree(now, s) ==> InTree(before, s) || s in done)
  }

  /** One more path: the table after it as StreeAdd promises it. */
  lemma AddingMore(before: map<nat, Stree.Row>, now: map<nat, Stree.Row>, all: set<string>, done: set<string>,
                   node: string, after: map<nat, Stree.Row>)
    requires Adding(before, now, all, done) && node in all && Stree.Linked(after)
    requires |Split(node)| != 3 ==> after == now
    requires forall x :: Stree.Has(now, x) ==> Stree.Has(after, x)
    requires |Split(node)| == 3 && "" !in Split(node) ==> forall s :: InTree(after, s) <==> InTree(now, s) || s == node
    ensures Adding(before, after, all, done + {node})
  {
  }

  /** The loop of FlushIndex over the paths, each added once, in any order. */
  method AddNodes(tree: Tree, all: set<string>)
    requires Stree.Sound(tree.Now())
    modifies tree
    ensures Stree.Sound(tree.Now()) && Adding(old(tree.rows), tree.rows, all, all)
  {
    var nodes := all;
    ghost var done := {};
    while nodes != {}
      invariant Stree.Sound(tree.Now()) && nodes + done == all && Adding(old(tree.rows), tree.rows, all, done)
      decreases nodes
    {
      var node :| node in nodes;
      nodes := nodes - {node};
      ghost var now := tree.rows;
      tree.StreeAdd(node);
      AddingMore(old(tree.rows), now, all, done, node, tree.rows);
      done := done + {node};
    }
  }

  /** Adds the paths of the rows. */
  method AddPaths(tree: Tree, rows: seq<Host>)
    requires Stree.Sound(tree.Now())
    modifies tree
    ensures Stree.Sound(tree.Now()) && TreeHolds(old(tree.rows), tree.rows, rows)
    ensures PathsIn(old(tree.rows), tree.rows, rows)
  {
    AddNodes(tree, set h | h in rows :: NodeOf(h));
    AddingDone(old(tree.rows), tree.rows, rows);
  }

  lemma AddingDone(before: map<nat, Stree.Row>, after: map<nat, Stree.Row>, rows: seq<Host>)
    requires var all := set h | h in rows :: NodeOf(h); Adding(before, after, all, all)
    ensures TreeHolds(before, after, rows) && PathsIn(before, after, rows)
  {
    PathsOfTree(before, after, rows);
  }

  /** The loop of FlushIndex over the rows. */
  method Build(hosts: seq<Host>) returns (ix: HeadIndexReader)
    ensures ix.Valid() && fresh(ix) && fresh(ix.postings) && IndexOf(ix.postings.m, hosts)
  {
    ix := new HeadIndexReader();
    NothingStands();
    for k := 0 to |hosts|
      invariant ix.Valid() && fresh(ix) && fresh(ix.postings)
      invariant forall l, id :: Stands(ix.postings.log, l, id) <==> Listed(hosts[..k], l, id)
    {
      ghost var log := ix.postings.log;
      AddHost(ix, hosts[k]);
      ListedMore(hosts, k);
    }
    assert hosts[..|hosts|] == hosts;
    ListsOfLog(ix.postings.m, ix.postings.log);
  }

  lemma NothingStands()
    ensures forall l, id :: !Stands([OrderOp], l, id)
  {
    forall l, id ensures !Stands([OrderOp], l, id) {
      assert [OrderOp][..0] == [] && Standing([], l, id) == 0;
    }
  }

  lemma ListedMore(hosts: seq<Host>, k: nat)
    requires k < |hosts|
    ensures forall l, id :: Listed(hosts[..k + 1], l, id) <==>
              Listed(hosts[..k], l, id) || (id == hosts[k].id && (HasLabel(hosts[k], l) || l == ALL_POSTINGS_KEY))
  {
    forall l, id
      ensures Listed(hosts[..k + 1], l, id) <==>
                Listed(hosts[..k], l, id) || (id == hosts[k].id && (HasLabel(hosts[k], l) || l == ALL_POSTINGS_KEY))
    {
      assert forall i :: 0 <= i < k ==> hosts[..k + 1][i] == hosts[..k][i];
      assert hosts[..k + 1][k] == hosts[k];
    }
  }

  lemma ListsOfLog(t: Table, log: seq<Op>)
    requires Records(t, log)
    ensures forall l, id :: id in Lookup(t, l) <==> Stands(log, l, id)
  {
    forall l, id ensures id in Lookup(t, l) <==> Stands(log, l, id) {
      assert Count(t, l, id) == Standing(log, l, id);
    }
  }

  // ---- queries on the index of a host list

  ghost predicate DistinctIds(hosts: seq<Host>) {
    forall i, j :: 0 <= i < j < |hosts| ==> hosts[i].id != hosts[j].id
  }

  function HostValues(h: Host, name: string): set<string> {
    (if name in h.columns then {h.columns[name]} else {})
    + (if name == PRIVATE_IP then AsSet(h.privateIps) else {})
    + (if name == PUBLIC_IP then AsSet(h.publicIps) else {})
  }

  ghost predicate HostSelected(e: Engine, ms: seq<Matcher>, h: Host) {
    forall k :: 0 <= k < |ms| ==> Demand(e, ms, ms[k], HostValues(h, ms[k].name))
  }

  /** The answer on the index of a host list: the ids of the hosts whose values meet every demand. */
  lemma AnswerOnHosts(t: Table, hosts: seq<Host>, e: Engine, ms: seq<Matcher>)
    requires IndexOf(t, hosts) && DistinctIds(hosts)
    requires forall k :: 0 <= k < |ms| ==> ms[k].name != ""
    ensures forall id :: id in Answer(t, e, ms) <==>
              exists i :: 0 <= i < |hosts| && hosts[i].id == id && HostSelected(e, ms, hosts[i])
  {
    forall i | 0 <= i < |hosts|
      ensures Selected(t, e, ms, hosts[i].id) <==> HostSelected(e, ms, hosts[i])
    {
      assert Listed(hosts, ALL_POSTINGS_KEY, hosts[i].id);
      forall k | 0 <= k < |ms| ensures ValuesAt(t, ms[k].name, hosts[i].id) == HostValues(hosts[i], ms[k].name) {
        OwnValues(t, hosts, i, ms[k].name);
      }
    }
    forall id | id in Answer(t, e, ms)
      ensures exists i :: 0 <= i < |hosts| && hosts[i].id == id && HostSelected(e, ms, hosts[i])
    {
      assert Listed(hosts, ALL_POSTINGS_KEY, id);
    }
  }

  /** A query for an address finds the hosts that have it. */
  lemma AddressQuery(t: Table, hosts: seq<Host>, e: Engine, kind: string, ip: string)
    requires IndexOf(t, hosts) && DistinctIds(hosts) && ip != "" && kind in {"private_ip", "public_ip"}
    requires forall i :: 0 <= i < |hosts| ==> kind !in hosts[i].columns
    ensures forall id :: id in Answer(t, e, [Matcher(MatchEqual, kind, ip)]) <==>
              exists i :: 0 <= i < |hosts| && hosts[i].id == id &&
                ip in if kind == "private_ip" then hosts[i].privateIps else hosts[i].publicIps
  {
    var m := Matcher(MatchEqual, kind, ip);
    AnswerOnHosts(t, hosts, e, [m]);
    forall i | 0 <= i < |hosts|
      ensures HostSelected(e, [m], hosts[i]) <==> ip in if kind == "private_ip" then hosts[i].privateIps else hosts[i].publicIps
    {
      var vs := HostValues(hosts[i], kind);
      DemandByType(e, [m], m, vs);
      assert HostSelected(e, [m], hosts[i]) <==> Demand(e, [m], [m][0], vs);
    }
  }

  lemma OwnValues(t: Table, hosts: seq<Host>, i: nat, name: string)
    requires IndexOf(t, hosts) && DistinctIds(hosts) && i < |hosts| && name != ""
    ensures ValuesAt(t, name, hosts[i].id) == HostValues(hosts[i], name)
  {
    forall v ensures v in ValuesAt(t, name, hosts[i].id) <==> v in HostValues(hosts[i], name) {
      assert hosts[i].id in Lookup(t, Label(name, v)) <==> Listed(hosts, Label(name, v), hosts[i].id);
    }
  }

  lemma LabelValues(h: Host, ls: seq<Label>, name: string)
    requires forall l :: l in ls <==> HasLabel(h, l)
    ensures HostValues(h, name) == NamedValues(ls, name)
  {
    forall v ensures v in HostValues(h, name) <==> v in NamedValues(ls, name) {
      assert Label(name, v) in ls <==> HasLabel(h, Label(name, v));
    }
  }

  /** For hosts with at most one address of each kind, the answer is that of Selector.Matches on their labels. */
  lemma SelectorOnHost(h: Host, ls: seq<Label>, e: Engine, ms: seq<Matcher>)
    requires OnePerName(ls) && forall l :: l in ls <==> HasLabel(h, l)
    ensures HostSelected(e, ms, h) <==> Selects(e, ms, ls)
  {
    forall k | 0 <= k < |ms| ensures HostValues(h, ms[k].name) == NamedValues(ls, ms[k].name) {
      LabelValues(h, ls, ms[k].name);
    }
    SingleValued(e, ms, ls);
  }
}
