// The operations of pkg/model/stree.go on the table of the service tree.

module ServiceTree {
  import opened Wrappers
  import opened TreePaths
  import opened Stree

  /** The dotted path leads to an application. */
  ghost predicate InTree(rows: map<nat, Row>, s: string)
    requires Linked(rows)
  {
    |Split(s)| == 3 && Has(rows, Split(s))
  }

  /** The paths of the tree that start with the prefix, each once. */
  ghost predicate Gathers(rows: map<nat, Row>, res: seq<string>, prefix: seq<string>)
    requires Linked(rows)
  {
    Once(res) && forall s :: s in res <==> InTree(rows, s) && prefix <= Split(s)
  }

  /** The names of the products of the group, sorted, each once. */
  ghost predicate ListsProducts(rows: map<nat, Row>, res: seq<string>, group: string)
    requires Linked(rows)
  {
    Ascending(res) && Once(res) && forall s :: s in res <==> Has(rows, [group, s])
  }

  ghost predicate Distinct(ids: seq<nat>) {
    forall i, j :: 0 <= i < j < |ids| ==> ids[i] != ids[j]
  }

  /** The strings are the dotted paths of these applications. */
  ghost predicate Writes(rows: map<nat, Row>, res: seq<string>, from: seq<nat>)
    requires Linked(rows)
  {
    && |res| == |from| && Distinct(from)
    && forall k :: 0 <= k < |from| ==> from[k] in rows && rows[from[k]].level == 3 && res[k] == Dotted(Names(rows, from[k]))
  }

  lemma SplitNames(rows: map<nat, Row>, id: nat)
    requires Linked(rows) && id in rows
    ensures Split(Dotted(Names(rows, id))) == Names(rows, id)
  {
    SplitDotted(Names(rows, id));
  }

  lemma WritesOnce(rows: map<nat, Row>, res: seq<string>, from: seq<nat>)
    requires Linked(rows) && Writes(rows, res, from)
    ensures Once(res)
  {
    forall i, j | 0 <= i < j < |res| ensures res[i] != res[j] {
      if res[i] == res[j] {
        SplitNames(rows, from[i]);
        SplitNames(rows, from[j]);
        NamesUnique(rows, from[i], from[j]);
      }
    }
    OnceIfDistinct(res);
  }

  /** Writing down the applications under a prefix gathers its paths. */
  lemma WritesGather(rows: map<nat, Row>, res: seq<string>, from: seq<nat>, prefix: seq<string>)
    requires Linked(rows) && Writes(rows, res, from)
    requires forall id :: id in from <==> id in rows && rows[id].level == 3 && prefix <= Names(rows, id)
    ensures Gathers(rows, res, prefix)
  {
    WritesOnce(rows, res, from);
    forall s ensures s in res <==> InTree(rows, s) && prefix <= Split(s) {
      if s in res {
        var k :| 0 <= k < |res| && res[k] == s;
        assert from[k] in from;
        SplitNames(rows, from[k]);
        assert IsNamed(rows, from[k], Split(s));
      }
      if InTree(rows, s) && prefix <= Split(s) {
        var id :| IsNamed(rows, id, Split(s));
        DottedSplit(s);
        assert id in from;
        var k :| 0 <= k < |from| && from[k] == id;
        assert res[k] == s;
      }
    }
  }

  /** The rows one level down that carry a row's names are its children. */
  lemma ChildIffNames(rows: map<nat, Row>, up: nat, id: nat)
    requires Linked(rows) && up in rows && id in rows && rows[id].level == rows[up].level + 1
    ensures Names(rows, up) <= Names(rows, id) <==> Parent(rows, id, up)
  {
    var v := UpOf(rows, id);
    assert Names(rows, v) == Names(rows, id)[..rows[up].level];
    if Parent(rows, id, up) {
      ParentUnique(rows, id, up, v);
    } else if Names(rows, up) <= Names(rows, id) {
      NamesUnique(rows, up, v);
    }
  }

  lemma GrandchildIffNames(rows: map<nat, Row>, up: nat, id: nat)
    requires Linked(rows) && up in rows && id in rows && rows[up].level == 1 && rows[id].level == 3
    ensures Names(rows, up) <= Names(rows, id) <==> Parent(rows, UpOf(rows, id), up)
  {
    var v := UpOf(rows, id);
    ChildIffNames(rows, up, v);
    assert Names(rows, v) == Names(rows, id)[..2];
  }

  lemma ThreeNames(rows: map<nat, Row>, g: nat, p: nat, a: nat)
    requires Linked(rows) && Parent(rows, p, g) && Parent(rows, a, p) && rows[a].level == 3
    ensures Names(rows, a) == [rows[g].name, rows[p].name, rows[a].name]
  {
    NamesBelow(rows, a, p);
    NamesBelow(rows, p, g);
  }

  lemma NothingUnder(rows: map<nat, Row>, prefix: seq<string>)
    requires Linked(rows) && prefix != [] && !Has(rows, prefix)
    ensures forall parts :: Has(rows, parts) ==> !(prefix <= parts)
    ensures Gathers(rows, [], prefix)
  {
    forall parts | Has(rows, parts) ensures !(prefix <= parts) {
      if prefix <= parts {
        assert parts[..|prefix|] == prefix;
        HasPrefix(rows, parts, |prefix|);
      }
    }
  }

  /** The names of the children of a group. */
  lemma ProductNames(rows: map<nat, Row>, g: nat, ps: seq<nat>, names: seq<string>)
    requires Linked(rows) && g in rows && rows[g].level == 1
    requires Distinct(ps) && forall i :: i in ps <==> Parent(rows, i, g)
    requires |names| == |ps| && forall k :: 0 <= k < |ps| ==> ps[k] in rows && names[k] == rows[ps[k]].name
    ensures Once(names) && forall s :: s in names <==> Has(rows, [rows[g].name, s])
  {
    forall i, j | 0 <= i < j < |names| ensures names[i] != names[j] {
      assert ps[i] in ps && ps[j] in ps && !Twins(rows, ps[i], ps[j]);
    }
    OnceIfDistinct(names);
    forall s ensures s in names <==> Has(rows, [rows[g].name, s]) {
      assert Names(rows, g) + [s] == [rows[g].name, s];
      if s in names {
        var k :| 0 <= k < |names| && names[k] == s;
        assert ps[k] in ps;
        ChildNamed(rows, g, s, ps[k]);
      }
      if i :| IsNamed(rows, i, [rows[g].name, s]) {
        ChildNamed(rows, g, s, i);
        assert i in ps;
        var k :| 0 <= k < |ps| && ps[k] == i;
        assert names[k] == s;
      }
    }
  }

  /** The applications of the products of a group are those that carry its name. */
  lemma GroupApps(rows: map<nat, Row>, g: nat, ps: seq<nat>, from: seq<nat>)
    requires Linked(rows) && g in rows && rows[g].level == 1
    requires forall i :: i in ps <==> Parent(rows, i, g)
    requires forall a :: a in from <==> a in rows && rows[a].level == 3 && UpOf(rows, a) in ps
    ensures forall a :: a in from <==> a in rows && rows[a].level == 3 && Names(rows, g) <= Names(rows, a)
  {
    forall a | a in rows && rows[a].level == 3 ensures a in from <==> Names(rows, g) <= Names(rows, a) {
      GrandchildIffNames(rows, g, a);
    }
  }

  /** The applications of the next product come on top of those gathered from the products before it. */
  lemma NextApps(rows: map<nat, Row>, ps: seq<nat>, k: nat, apps: seq<nat>, from: seq<nat>)
    requires Linked(rows) && k < |ps| && Distinct(ps) && Distinct(apps) && Distinct(from)
    requires ps[k] in rows && rows[ps[k]].level == 2 && forall a :: a in apps <==> Parent(rows, a, ps[k])
    requires forall a :: a in from <==> a in rows && rows[a].level == 3 && UpOf(rows, a) in ps[..k]
    ensures Distinct(from + apps)
    ensures forall a :: a in from + apps <==> a in rows && rows[a].level == 3 && UpOf(rows, a) in ps[..k + 1]
  {
    assert ps[..k + 1] == ps[..k] + [ps[k]] && ps[k] !in ps[..k];
    forall a | a in rows && rows[a].level == 3 ensures a in apps <==> UpOf(rows, a) == ps[k] {
      if a in apps {
        ParentUnique(rows, a, UpOf(rows, a), ps[k]);
      }
    }
    forall i, j | 0 <= i < j < |from + apps| ensures (from + apps)[i] != (from + apps)[j] {
      if i < |from| <= j {
        assert from[i] in from && apps[j - |from|] in apps;
      }
    }
  }

  lemma ProductApps(rows: map<nat, Row>, p: nat, apps: seq<nat>)
    requires Linked(rows) && p in rows && rows[p].level == 2
    requires forall a :: a in apps <==> Parent(rows, a, p)
    ensures forall a :: a in apps <==> a in rows && rows[a].level == 3 && Names(rows, p) <= Names(rows, a)
  {
    forall a | a in rows && rows[a].level == 3 ensures a in apps <==> Names(rows, p) <= Names(rows, a) {
      ChildIffNames(rows, p, a);
    }
  }

  ghost function TopOf(rows: map<nat, Row>, a: nat): (g: nat)
    requires Linked(rows) && a in rows && rows[a].level == 3
    ensures g in rows && rows[g].level == 1
  {
    UpOf(rows, UpOf(rows, a))
  }

  function OfLevel(rows: map<nat, Row>, level: int): map<nat, Row> {
    map i | i in rows && rows[i].level == level :: rows[i]
  }

  lemma LevelMore(rows: map<nat, Row>, todo: set<nat>, i: nat, level: int)
    requires i in rows && i in todo
    ensures var before := OfLevel(rows - todo, level);
            OfLevel(rows - (todo - {i}), level) == if rows[i].level == level then before[i := rows[i]] else before
  {
  }

  lemma WritesMore(rows: map<nat, Row>, res: seq<string>, from: seq<nat>, a: nat)
    requires Linked(rows) && Writes(rows, res, from)
    requires a in rows && rows[a].level == 3 && a !in from
    ensures Writes(rows, res + [Dotted(Names(rows, a))], from + [a])
  {
  }

  lemma ParentIsUp(rows: map<nat, Row>, a: nat, p: nat)
    requires Linked(rows) && a in rows && rows[a].level > 1
    ensures Parent(rows, a, p) <==> UpOf(rows, a) == p
  {
    if Parent(rows, a, p) {
      ParentUnique(rows, a, p, UpOf(rows, a));
    }
  }

  /** Growing by a path of three non-empty names puts exactly that path into the tree. */
  lemma GrownHolds(t: Table, u: Table, node: string)
    requires Sound(t) && |Split(node)| == 3 && "" !in Split(node) && Grown(t, u, Split(node))
    ensures Sound(u)
    ensures forall s :: InTree(u.rows, s) <==> InTree(t.rows, s) || s == node
  {
    var parts := Split(node);
    assert parts[..3] == parts;
    GrownMeans(t, u, parts);
    forall s ensures InTree(u.rows, s) <==> InTree(t.rows, s) || s == node {
      DottedSplit(s);
      DottedSplit(node);
    }
  }

  /** What a lookup by struct below the prefix means by a name: the name itself, or when it is empty any name that is
      there, if there is one. */
  ghost predicate Meant(rows: map<nat, Row>, prefix: seq<string>, name: string, part: string)
    requires Linked(rows)
  {
    if name != "" then part == name else Has(rows, prefix + [part]) || forall h :: !Has(rows, prefix + [h])
  }

  /** The first names of the path are looked up by struct and mean the given parts. */
  ghost predicate ReadsAs(rows: map<nat, Row>, path: seq<string>, parts: seq<string>)
    requires Linked(rows)
  {
    |parts| <= |path| && forall k :: 0 <= k < |parts| ==> Meant(rows, parts[..k], path[k], parts[k])
  }

  lemma ReadMore(rows: map<nat, Row>, path: seq<string>, parts: seq<string>, part: string)
    requires Linked(rows) && ReadsAs(rows, path, parts) && |parts| < |path| && Meant(rows, parts, path[|parts|], part)
    ensures ReadsAs(rows, path, parts + [part])
  {
    var more := parts + [part];
    forall k | 0 <= k < |more| ensures Meant(rows, more[..k], path[k], more[k]) {
      assert more[..k] == parts[..k];
      assert parts[..|parts|] == parts;
    }
  }

  /** Names that are not empty mean themselves. */
  lemma ReadsPlain(rows: map<nat, Row>, path: seq<string>, parts: seq<string>)
    requires Linked(rows) && ReadsAs(rows, path, parts) && "" !in path
    ensures parts == path[..|parts|]
  {
    forall k | 0 <= k < |parts| ensures parts[k] == path[k] {
      assert Meant(rows, parts[..k], path[k], parts[k]) && path[k] in path;
    }
  }

  lemma ReadGroup(rows: map<nat, Row>, path: seq<string>, g: string)
    requires Linked(rows) && path != [] && Meant(rows, [], path[0], g)
    ensures ReadsAs(rows, path, [g])
  {
    ReadMore(rows, path, [], g);
    assert [] + [g] == [g];
  }

  lemma SomeMeant(rows: map<nat, Row>, prefix: seq<string>, name: string) returns (part: string)
    requires Linked(rows)
    ensures Meant(rows, prefix, name, part)
  {
    part := name;
    if h :| Has(rows, prefix + [h]) {
      part := if name == "" then h else name;
    }
  }

  lemma GroupMeant(rows: map<nat, Row>, name: string, id: Option<nat>) returns (part: string)
    requires Linked(rows)
    requires id.None? ==> forall i :: i in rows ==> !Like(rows[i], Row(1, ROOT, name))
    requires id.Some? ==> id.value in rows && Like(rows[id.value], Row(1, ROOT, name))
    ensures Meant(rows, [], name, part) && Found(rows, id, [part])
  {
    part := if id.Some? then rows[id.value].name else name;
    GroupFound(rows, part, id);
    forall h ensures [] + [h] == [h] && (id.None? && name == "" ==> !Has(rows, [h])) {
      if id.None? && name == "" {
        GroupFound(rows, h, None);
      }
    }
  }

  lemma ChildMeant(rows: map<nat, Row>, up: nat, name: string, id: Option<nat>) returns (part: string)
    requires Linked(rows) && up in rows
    requires id.None? ==> forall i :: i in rows ==> !Like(rows[i], Row(rows[up].level + 1, Below(rows, up), name))
    requires id.Some? ==> id.value in rows && Like(rows[id.value], Row(rows[up].level + 1, Below(rows, up), name))
    ensures Meant(rows, Names(rows, up), name, part) && Found(rows, id, Names(rows, up) + [part])
  {
    part := if id.Some? then rows[id.value].name else name;
    ChildFound(rows, up, part, id);
    if id.None? && name == "" {
      forall h ensures !Has(rows, Names(rows, up) + [h]) {
        ChildFound(rows, up, h, None);
      }
    }
  }

  /** Deleting by a path: at most one row goes, and it is the one the path names when nothing hangs under it. */
  ghost predicate Deleted(before: map<nat, Row>, after: map<nat, Row>, path: seq<string>, del: nat) {
    && Linked(before) && Linked(after) && del == (if after == before then 0 else 1)
    && (del == 1 ==> exists id :: IsNamed(before, id, path) && after == before - {id})
    && (del == 1 <==> Removable(before, path))
    && forall x :: Has(after, x) <==> Has(before, x) && !(del == 1 && x == path)
  }

  /** The first two names of the path are looked up by struct, the third as it stands. */
  ghost predicate DeletedAs(before: map<nat, Row>, after: map<nat, Row>, path: seq<string>, parts: seq<string>, del: nat) {
    && Linked(before) && |parts| == (if |path| < 2 then |path| else 2) && ReadsAs(before, path, parts)
    && Deleted(before, after, parts + path[|parts|..], del)
  }

  lemma NotDeleted(rows: map<nat, Row>, path: seq<string>, k: nat)
    requires Linked(rows) && 1 <= k <= |path| && (!Has(rows, path[..k]) || |path| > 3)
    ensures Deleted(rows, rows, path, 0)
  {
    if id :| IsNamed(rows, id, path) && Childless(rows, id) {
      assert Has(rows, path);
      HasPrefix(rows, path, k);
    }
  }

  lemma NamedDeleted(rows: map<nat, Row>, path: seq<string>, id: nat)
    requires Linked(rows) && IsNamed(rows, id, path)
    ensures if Childless(rows, id) then Deleted(rows, rows - {id}, path, 1) else Deleted(rows, rows, path, 0)
  {
    RemovableIs(rows, path, Some(id));
    if Childless(rows, id) {
      RemovedMeans(rows, id);
    }
  }

  lemma ReadRest(rows: map<nat, Row>, path: seq<string>, g: string) returns (parts: seq<string>)
    requires Linked(rows) && path != [] && ReadsAs(rows, path, [g])
    ensures ReadsAs(rows, path, parts) && |parts| == (if |path| < 2 then |path| else 2) && parts[0] == g
  {
    parts := [g];
    if |path| > 1 {
      var p := SomeMeant(rows, [g], path[1]);
      ReadMore(rows, path, [g], p);
      parts := parts + [p];
    }
  }

  /** Without the group, or with too many names, nothing is deleted. */
  lemma NoGroup(rows: map<nat, Row>, path: seq<string>, g: string) returns (parts: seq<string>)
    requires Linked(rows) && path != [] && ReadsAs(rows, path, [g]) && (!Has(rows, [g]) || |path| > 3)
    ensures DeletedAs(rows, rows, path, parts, 0)
  {
    parts := ReadRest(rows, path, g);
    var whole := parts + path[|parts|..];
    assert whole[..1] == [g];
    NotDeleted(rows, whole, 1);
  }

  /** When what leads to it is missing, the third part may be any that is meant. */
  lemma ReadThird(rows: map<nat, Row>, path: seq<string>, two: seq<string>) returns (parts: seq<string>)
    requires Linked(rows) && |path| == 3 && |two| == 2 && ReadsAs(rows, path, two)
    requires !Has(rows, two[..1]) || !Has(rows, two)
    ensures |parts| == 3 && ReadsAs(rows, path, parts) && !Has(rows, parts)
  {
    var a := SomeMeant(rows, two, path[2]);
    ReadMore(rows, path, two, a);
    parts := two + [a];
    assert parts[..1] == two[..1] && parts[..2] == two;
    if Has(rows, parts) {
      HasPrefix(rows, parts, 1);
      HasPrefix(rows, parts, 2);
    }
  }

  class Tree {
    var rows: map<nat, Row>
    var last: nat

    ghost function Now(): Table
      reads this
    {
      Table(rows, last)
    }

    constructor ()
      ensures Sound(Now()) && rows == map[]
    {
      rows, last := map[], 0;
    }

    /** The lookup by struct. */
    method Get(want: Row) returns (id: Option<nat>)
      ensures match id
              case None => forall i :: i in rows ==> !Like(rows[i], want)
              case Some(i) => i in rows && Like(rows[i], want)
    {
      if i :| i in rows && Like(rows[i], want) {
        return Some(i);
      }
      return None;
    }

    /** The lookup by level, path and name. */
    method GetWhere(want: Row) returns (id: Option<nat>)
      ensures match id
              case None => forall i :: i in rows ==> rows[i] != want
              case Some(i) => i in rows && rows[i] == want
    {
      if i :| i in rows && rows[i] == want {
        return Some(i);
      }
      return None;
    }

    /** The rows of a level with a path, in no particular order. */
    method GetMultiple(level: int, path: string) returns (ids: seq<nat>)
      ensures Distinct(ids) && forall i :: i in ids <==> i in rows && rows[i].level == level && rows[i].path == path
    {
      ids := [];
      var todo := rows.Keys;
      while todo != {}
        invariant todo <= rows.Keys && Distinct(ids)
        invariant forall i :: i in ids <==> i in rows && i !in todo && rows[i].level == level && rows[i].path == path
      {
        var i :| i in todo;
        todo := todo - {i};
        if rows[i].level == level && rows[i].path == path {
          ids := ids + [i];
        }
      }
    }

    method Add(row: Row) returns (id: nat)
      modifies this
      ensures id == old(last) + 1 && Now() == Table(old(rows)[id := row], id)
    {
      id := last + 1;
      rows, last := rows[id := row], id;
    }

    method GetOrInsert(row: Row) returns (id: nat)
      modifies this
      ensures GotOrAdded(old(Now()), Now(), row, id)
    {
      var exist := this.Get(row);
      if exist.Some? {
        return exist.value;
      }
      id := this.Add(row);
    }

    method CheckPathExists(targetPath: string) returns (ok: bool)
      requires Sound(Now())
      modifies this
      ensures Sound(Now()) && ok == (|Split(targetPath)| >= 3)
      ensures if ok then Grown(old(Now()), Now(), Split(targetPath)) else Now() == old(Now())
    {
      var gpa := Split(targetPath);
      if |gpa| < 3 {
        return false;
      }
      var g := GetOrInsert(Row(1, ROOT, gpa[0]));
      ghost var t1 := Now();
      var p := GetOrInsert(Row(2, Under("", g), gpa[1]));
      ghost var t2 := Now();
      StepKeeps(old(Now()), t1, Row(1, ROOT, gpa[0]), 0, g);
      StepKeeps(t1, t2, Row(2, Under("", g), gpa[1]), g, p);
      var a := GetOrInsert(Row(3, Under(rows[p].path, p), gpa[2]));
      assert Steps(old(Now()), g, t1, p, t2, a, Now(), gpa);
      GrownMeans(old(Now()), Now(), gpa);
      ok := true;
    }

    /** StreeAdd with its own chain of inserts: it changes the table as CheckPathExists does. */
    method StreeAdd(node: string)
      requires Sound(Now())
      modifies this
      ensures Sound(Now())
      ensures if |Split(node)| == 3 then Grown(old(Now()), Now(), Split(node)) else Now() == old(Now())
      ensures forall x :: Has(old(rows), x) ==> Has(rows, x)
      ensures |Split(node)| == 3 && "" !in Split(node) ==>
                forall s :: InTree(rows, s) <==> InTree(old(rows), s) || s == node
    {
      var result := Split(node);
      if |result| != 3 {
        return;
      }
      var rowG := Row(1, ROOT, result[0]);
      var dbG := this.Get(rowG);
      ghost var t := Now();
      match dbG {
        case None =>
          var g := this.Add(rowG);
          AddBelow(t, g, result);
        case Some(g) =>
          var rowP := Row(2, Under("", g), result[1]);
          var dbP := this.Get(rowP);
          if dbP.Some? {
            var p := dbP.value;
            var rowA := Row(3, Under(Under("", g), p), result[2]);
            var dbA := this.Get(rowA);
            if dbA.None? {
              var a := this.Add(rowA);
              assert Steps(t, g, t, p, t, a, Now(), result);
            } else {
              assert Steps(t, g, t, p, t, dbA.value, Now(), result);
            }
          } else {
            var p := this.Add(rowP);
            AddLeaf(t, g, t, p, result);
          }
      }
      GrownMeans(t, Now(), result);
      if "" !in result {
        GrownHolds(t, Now(), node);
      }
    }

    /** The group is new: the product and the application are inserted without a lookup. */
    method AddBelow(ghost t: Table, g: nat, result: seq<string>)
      requires Sound(t) && |result| == 3 && forall part :: part in result ==> Plain(part)
      requires g == t.last + 1 && Now() == Table(t.rows[g := Row(1, ROOT, result[0])], g)
      requires forall i :: i in t.rows ==> !Like(t.rows[i], Row(1, ROOT, result[0]))
      modifies this
      ensures Grown(t, Now(), result)
    {
      ghost var t1 := Now();
      ghost var rowG := Row(1, ROOT, result[0]);
      StepKeeps(t, t1, rowG, 0, g);
      FreshChildless(t, rowG, 0);
      var rowP := Row(2, Under("", g), result[1]);
      forall i | i in t1.rows ensures !Like(t1.rows[i], rowP) {
        assert !Parent(t1.rows, i, g);
      }
      var p := this.Add(rowP);
      AddLeaf(t, g, t1, p, result);
    }

    /** The product is new: the application is inserted without a lookup. */
    method AddLeaf(ghost t: Table, g: nat, ghost t1: Table, p: nat, result: seq<string>)
      requires Sound(t1) && |result| == 3 && forall part :: part in result ==> Plain(part)
      requires GotOrAdded(t, t1, Row(1, ROOT, result[0]), g)
      requires Fits(t1.rows, Row(2, Under("", g), result[1]), g)
      requires p == t1.last + 1 && Now() == Table(t1.rows[p := Row(2, Under("", g), result[1])], p)
      requires forall i :: i in t1.rows ==> !Like(t1.rows[i], Row(2, Under("", g), result[1]))
      modifies this
      ensures Grown(t, Now(), result)
    {
      ghost var t2 := Now();
      ghost var rowP := Row(2, Under("", g), result[1]);
      StepKeeps(t1, t2, rowP, g, p);
      FreshChildless(t1, rowP, g);
      var rowA := Row(3, Under(Under("", g), p), result[2]);
      forall i | i in t2.rows ensures !Like(t2.rows[i], rowA) {
        assert !Parent(t2.rows, i, p);
      }
      var a := this.Add(rowA);
      assert Steps(t, g, t1, p, t2, a, Now(), result);
    }

    method DeleteRow(id: nat, ghost path: seq<string>) returns (del: nat)
      requires Sound(Now()) && IsNamed(rows, id, path) && Childless(rows, id)
      modifies this`rows
      ensures Sound(Now()) && Deleted(old(rows), rows, path, del)
    {
      NamedDeleted(rows, path, id);
      rows := rows - {id};
      del := 1;
    }

    /** StreeDelete; the answer is the number of rows deleted. */
    method StreeDelete(node: string) returns (del: nat)
      requires Sound(Now())
      modifies this`rows
      ensures Sound(Now()) && exists parts :: DeletedAs(old(rows), rows, Split(node), parts, del)
      ensures "" !in Split(node) ==> Deleted(old(rows), rows, Split(node), del)
    {
      ghost var parts;
      del, parts := DeletePath(Split(node));
      assert DeletedAs(old(rows), rows, Split(node), parts, del);
      if "" !in Split(node) {
        ReadsPlain(old(rows), Split(node), parts);
        assert parts + Split(node)[|parts|..] == Split(node);
      }
    }

    method DeletePath(path: seq<string>) returns (del: nat, ghost parts: seq<string>)
      requires Sound(Now()) && |path| > 0
      modifies this`rows
      ensures Sound(Now()) && DeletedAs(old(rows), rows, path, parts, del)
    {
      var dbG := this.Get(Row(1, ROOT, path[0]));
      ghost var g := GroupMeant(rows, path[0], dbG);
      ReadGroup(rows, path, g);
      if dbG.None? || |path| > 3 {
        parts := NoGroup(rows, path, g);
        return 0, parts;
      }
      if |path| == 1 {
        del, parts := DeleteGroup(dbG.value, path, g);
      } else {
        del, parts := DeleteUnder(dbG.value, path, g);
      }
    }

    /** A path of two or three names below a group that has been found. */
    method DeleteUnder(g: nat, path: seq<string>, ghost group: string) returns (del: nat, ghost parts: seq<string>)
      requires Sound(Now()) && 2 <= |path| <= 3 && IsNamed(rows, g, [group]) && ReadsAs(rows, path, [group])
      modifies this`rows
      ensures Sound(Now()) && DeletedAs(old(rows), rows, path, parts, del)
    {
      var dbP;
      ghost var p;
      dbP, p := FindProduct(g, path, group);
      parts := [group, p];
      if dbP.None? {
        assert (parts + path[2..])[..2] == parts;
        NotDeleted(rows, parts + path[2..], 2);
        return 0, parts;
      }
      if |path| == 2 {
        assert parts + path[2..] == parts;
        del := DeleteProduct(dbP.value, parts);
      } else {
        assert parts + path[2..] == parts + [path[2]];
        del := DeleteApplication(dbP.value, parts, path[2]);
      }
    }

    /** A group goes when no product hangs under it. */
    method DeleteGroup(g: nat, path: seq<string>, ghost group: string) returns (del: nat, ghost parts: seq<string>)
      requires Sound(Now()) && |path| == 1 && IsNamed(rows, g, [group]) && ReadsAs(rows, path, [group])
      modifies this`rows
      ensures Sound(Now()) && DeletedAs(old(rows), rows, path, parts, del)
    {
      parts := [group];
      assert parts + path[1..] == parts;
      var ps := GetMultiple(2, Under("", g));
      if |ps| > 0 {
        assert Parent(rows, ps[0], g);
        NamedDeleted(rows, parts, g);
        return 0, parts;
      }
      del := DeleteRow(g, parts);
    }

    /** The product under the group is looked up. */
    method FindProduct(g: nat, path: seq<string>, ghost group: string) returns (dbP: Option<nat>, ghost p: string)
      requires Sound(Now()) && |path| > 1 && IsNamed(rows, g, [group]) && ReadsAs(rows, path, [group])
      ensures ReadsAs(rows, path, [group, p]) && Found(rows, dbP, [group, p])
    {
      dbP := this.Get(Row(2, Under("", g), path[1]));
      p := ChildMeant(rows, g, path[1], dbP);
      ReadMore(rows, path, [group], p);
      assert [group] + [p] == [group, p];
    }

    /** A product goes when no application hangs under it. */
    method DeleteProduct(p: nat, ghost parts: seq<string>) returns (del: nat)
      requires Sound(Now()) && IsNamed(rows, p, parts) && rows[p].level == 2
      modifies this`rows
      ensures Sound(Now()) && Deleted(old(rows), rows, parts, del)
    {
      var apps := GetMultiple(3, Under(rows[p].path, p));
      if |apps| > 0 {
        assert Parent(rows, apps[0], p);
        NamedDeleted(rows, parts, p);
        return 0;
      }
      del := DeleteRow(p, parts);
    }

    /** An application goes when it is found; nothing can hang under it. */
    method DeleteApplication(p: nat, ghost parts: seq<string>, name: string) returns (del: nat)
      requires Sound(Now()) && IsNamed(rows, p, parts) && rows[p].level == 2
      modifies this`rows
      ensures Sound(Now()) && Deleted(old(rows), rows, parts + [name], del)
    {
      var dbA := GetWhere(Row(3, Under(rows[p].path, p), name));
      ChildFound(rows, p, name, dbA);
      if dbA.None? {
        assert (parts + [name])[..3] == parts + [name];
        NotDeleted(rows, parts + [name], 3);
        return 0;
      }
      del := DeleteRow(dbA.value, parts + [name]);
    }

    /** Appends the dotted paths of applications of one product. */
    method WriteApps(g: nat, p: nat, apps: seq<nat>, res: seq<string>, ghost from: seq<nat>) returns (out: seq<string>)
      requires Linked(rows) && Writes(rows, res, from)
      requires Parent(rows, p, g) && rows[p].level == 2 && Distinct(from + apps)
      requires forall a :: a in apps ==> Parent(rows, a, p)
      ensures Writes(rows, out, from + apps)
    {
      out := res;
      for k := 0 to |apps|
        invariant Writes(rows, out, from + apps[..k])
      {
        ThreeNames(rows, g, p, apps[k]);
        out := out + [Dotted([rows[g].name, rows[p].name, rows[apps[k]].name])];
        assert from + apps[..k + 1] == from + apps[..k] + [apps[k]];
        assert (from + apps)[..|from| + k + 1] == from + apps[..k + 1];
      }
      assert apps[..|apps|] == apps;
    }

    /** Type 1: the products of a group. */
    method Products(node: string) returns (result: seq<string>, ghost group: string)
      requires Sound(Now())
      ensures Meant(rows, [], node, group) && ListsProducts(rows, result, group)
    {
      var dbG := this.Get(Row(1, ROOT, node));
      group := GroupMeant(rows, node, dbG);
      result := [];
      if dbG.None? {
        NothingUnder(rows, [group]);
        assert forall s :: [group] <= [group, s];
        return;
      }
      var g := dbG.value;
      var ps := GetMultiple(2, Under("", g));
      for k := 0 to |ps|
        invariant |result| == k && forall i :: 0 <= i < k ==> result[i] == rows[ps[i]].name
      {
        assert ps[k] in ps;
        result := result + [rows[ps[k]].name];
      }
      ProductNames(rows, g, ps, result);
      result := SortStrings(result);
    }

    /** Type 2: the paths under a group. */
    method PathsOfGroup(node: string) returns (result: seq<string>, ghost group: string)
      requires Sound(Now())
      ensures Meant(rows, [], node, group) && Ascending(result) && Gathers(rows, result, [group])
    {
      var dbG := this.Get(Row(1, ROOT, node));
      group := GroupMeant(rows, node, dbG);
      result := [];
      if dbG.None? {
        NothingUnder(rows, [group]);
        return;
      }
      var g := dbG.value;
      var ps := GetMultiple(2, Under("", g));
      assert forall i :: i in ps <==> Parent(rows, i, g);
      if |ps| == 0 {
        GroupApps(rows, g, ps, []);
        WritesGather(rows, [], [], Names(rows, g));
        return;
      }
      ghost var from: seq<nat> := [];
      for k := 0 to |ps|
        invariant Writes(rows, result, from)
        invariant forall a :: a in from <==> a in rows && rows[a].level == 3 && UpOf(rows, a) in ps[..k]
      {
        var p := ps[k];
        assert p in ps;
        var apps := GetMultiple(3, Under(rows[p].path, p));
        NextApps(rows, ps, k, apps, from);
        if |apps| == 0 {
          assert from + apps == from;
          continue;
        }
        result := WriteApps(g, p, apps, result, from);
        from := from + apps;
      }
      assert ps[..|ps|] == ps;
      GroupApps(rows, g, ps, from);
      WritesGather(rows, result, from, Names(rows, g));
      result := SortStrings(result);
    }

    /** Type 3: the paths under a product, whose name is taken as it stands. */
    method PathsOfProduct(node: string) returns (result: seq<string>, ghost group: string)
      requires Sound(Now())
      ensures Meant(rows, [], Split(node)[0], group)
      ensures if |Split(node)| == 2 then Ascending(result) && Gathers(rows, result, [group, Split(node)[1]]) else result == []
    {
      var gps := Split(node);
      result := [];
      if |gps| != 2 {
        group := SomeMeant(rows, [], gps[0]);
        return;
      }
      var dbG := this.Get(Row(1, ROOT, gps[0]));
      group := GroupMeant(rows, gps[0], dbG);
      if dbG.None? {
        NothingUnder(rows, [group]);
        ghost var both := [group, gps[1]];
        assert [group] <= both;
        NothingUnder(rows, both);
        return;
      }
      var g := dbG.value;
      var dbP := GetWhere(Row(2, Under("", g), gps[1]));
      ChildFound(rows, g, gps[1], dbP);
      assert Names(rows, g) + [gps[1]] == [group, gps[1]];
      if dbP.None? {
        NothingUnder(rows, [group, gps[1]]);
        return;
      }
      var p := dbP.value;
      var apps := GetMultiple(3, Under(Under("", g), p));
      assert forall a :: a in apps <==> Parent(rows, a, p);
      ghost var from: seq<nat> := [];
      assert from + apps == apps;
      result := WriteApps(g, p, apps, result, from);
      ProductApps(rows, p, apps);
      WritesGather(rows, result, apps, Names(rows, p));
      result := SortStrings(result);
    }

    /** Type 4: whether a path is there. */
    method PathExists(node: string) returns (result: seq<string>, ghost parts: seq<string>)
      requires Sound(Now())
      ensures if |Split(node)| != 3 then result == []
              else |parts| == 3 && ReadsAs(rows, Split(node), parts) && result == if Has(rows, parts) then [node] else []
    {
      var gpas := Split(node);
      result, parts := [], [];
      if |gpas| != 3 {
        return;
      }
      var dbG := this.Get(Row(1, ROOT, gpas[0]));
      ghost var g := GroupMeant(rows, gpas[0], dbG);
      ReadGroup(rows, gpas, g);
      if dbG.None? {
        parts := ReadRest(rows, gpas, g);
        parts := ReadThird(rows, gpas, parts);
        return;
      }
      var dbP;
      ghost var p;
      dbP, p := FindProduct(dbG.value, gpas, g);
      if dbP.None? {
        parts := ReadThird(rows, gpas, [g, p]);
        return;
      }
      var dbA := this.Get(Row(3, Under(rows[dbP.value].path, dbP.value), gpas[2]));
      ghost var a := ChildMeant(rows, dbP.value, gpas[2], dbA);
      ReadMore(rows, gpas, [g, p], a);
      parts := [g, p] + [a];
      if dbA.None? {
        return;
      }
      result := [node];
    }

    /** The split of all rows by level that type 5 starts with. */
    method ByLevel() returns (groups: map<nat, Row>, products: map<nat, Row>, apps: map<nat, Row>)
      ensures groups == OfLevel(rows, 1) && products == OfLevel(rows, 2) && apps == OfLevel(rows, 3)
    {
      groups, products, apps := map[], map[], map[];
      var todo := rows.Keys;
      while todo != {}
        invariant todo <= rows.Keys
        invariant groups == OfLevel(rows - todo, 1)
        invariant products == OfLevel(rows - todo, 2)
        invariant apps == OfLevel(rows - todo, 3)
      {
        var i :| i in todo;
        LevelMore(rows, todo, i, 1);
        LevelMore(rows, todo, i, 2);
        LevelMore(rows, todo, i, 3);
        todo := todo - {i};
        match rows[i].level {
          case 1 => groups := groups[i := rows[i]];
          case 2 => products := products[i := rows[i]];
          case 3 => apps := apps[i := rows[i]];
          case _ =>
        }
      }
      assert rows - {} == rows;
    }

    /** The innermost loop of type 5. */
    method AppsOf(g: nat, p: nat, apps: map<nat, Row>, res: seq<string>, ghost from: seq<nat>)
      returns (out: seq<string>, ghost to: seq<nat>)
      requires Linked(rows) && apps == OfLevel(rows, 3) && Writes(rows, res, from)
      requires Parent(rows, p, g) && rows[p].level == 2 && forall a :: a in from ==> UpOf(rows, a) != p
      ensures Writes(rows, out, to)
      ensures forall a :: a in to <==> a in from || (a in apps && UpOf(rows, a) == p)
    {
      out, to := res, from;
      var todo := apps.Keys;
      while todo != {}
        invariant todo <= apps.Keys && Writes(rows, out, to)
        invariant forall a :: a in to <==> a in from || (a in apps && a !in todo && UpOf(rows, a) == p)
      {
        var a :| a in todo;
        todo := todo - {a};
        ParentIsUp(rows, a, p);
        if Under(rows[p].path, p) == apps[a].path {
          ThreeNames(rows, g, p, a);
          WritesMore(rows, out, to, a);
          out, to := out + [Dotted([rows[g].name, rows[p].name, apps[a].name])], to + [a];
        }
      }
    }

    /** The middle loop of type 5. */
    method AppsUnder(g: nat, products: map<nat, Row>, apps: map<nat, Row>, res: seq<string>, ghost from: seq<nat>)
      returns (out: seq<string>, ghost to: seq<nat>)
      requires Linked(rows) && products == OfLevel(rows, 2) && apps == OfLevel(rows, 3) && Writes(rows, res, from)
      requires g in rows && rows[g].level == 1 && forall a :: a in from ==> TopOf(rows, a) != g
      ensures Writes(rows, out, to)
      ensures forall a :: a in to <==> a in from || (a in apps && TopOf(rows, a) == g)
    {
      out, to := res, from;
      var todo := products.Keys;
      while todo != {}
        invariant todo <= products.Keys && Writes(rows, out, to)
        invariant forall a :: a in to <==> a in from || (a in apps && TopOf(rows, a) == g && UpOf(rows, a) !in todo)
      {
        var p :| p in todo;
        ParentIsUp(rows, p, g);
        if Under("", g) == products[p].path {
          out, to := AppsOf(g, p, apps, out, to);
        }
        todo := todo - {p};
      }
    }

    /** Type 5: all paths. */
    method AllPaths() returns (result: seq<string>)
      requires Sound(Now())
      ensures Gathers(rows, result, [])
    {
      var groups, products, apps := ByLevel();
      result := [];
      ghost var from: seq<nat> := [];
      var todo := groups.Keys;
      while todo != {}
        invariant todo <= groups.Keys && Writes(rows, result, from)
        invariant forall a :: a in from <==> a in apps && TopOf(rows, a) !in todo
      {
        var g :| g in todo;
        result, from := AppsUnder(g, products, apps, result, from);
        todo := todo - {g};
      }
      WritesGather(rows, result, from, []);
    }

    method StreeQuery(node: string, queryType: int) returns (result: seq<string>)
      requires Sound(Now())
      ensures queryType == 1 ==> exists g :: Meant(rows, [], node, g) && ListsProducts(rows, result, g)
      ensures queryType == 2 ==> exists g :: Meant(rows, [], node, g) && Ascending(result) && Gathers(rows, result, [g])
      ensures queryType == 3 && |Split(node)| == 2 ==>
                exists g :: Meant(rows, [], Split(node)[0], g) && Ascending(result) && Gathers(rows, result, [g, Split(node)[1]])
      ensures queryType == 4 && |Split(node)| == 3 ==>
                exists parts :: |parts| == 3 && ReadsAs(rows, Split(node), parts) && result == if Has(rows, parts) then [node] else []
      ensures queryType == 4 && "" !in Split(node) ==> result == if InTree(rows, node) then [node] else []
      ensures queryType == 5 ==> Gathers(rows, result, [])
      ensures !(1 <= queryType <= 5) || (queryType == 3 && |Split(node)| != 2) || (queryType == 4 && |Split(node)| != 3) ==>
                result == []
    {
      ghost var group, parts;
      match queryType {
        case 1 => result, group := Products(node);
        case 2 => result, group := PathsOfGroup(node);
        case 3 => result, group := PathsOfProduct(node);
        case 4 =>
          result, parts := PathExists(node);
          if |Split(node)| == 3 && "" !in Split(node) {
            ReadsPlain(rows, Split(node), parts);
            assert parts == Split(node);
          }
        case 5 => result := AllPaths();
        case _ => result := [];
      }
    }
  }
}
