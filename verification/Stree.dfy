// The service tree of pkg/model/stree.go: groups, products and applications kept as rows of one table.

module Stree {
  import opened Wrappers
  import opened TreePaths

  datatype Row = Row(level: int, path: string, name: string)

  /** The table: rows by id, and the last id given out. */
  datatype Table = Table(rows: map<nat, Row>, last: nat)

  const ROOT := "0"

  /** The path that the children of a row carry. */
  function Below(rows: map<nat, Row>, id: nat): string
    requires id in rows
  {
    Under(if rows[id].level == 1 then "" else rows[id].path, id)
  }

  ghost predicate Parent(rows: map<nat, Row>, id: nat, up: nat) {
    && id in rows && up in rows
    && rows[id].level == rows[up].level + 1 && rows[id].path == Below(rows, up)
  }

  ghost predicate Childless(rows: map<nat, Row>, id: nat) {
    forall i :: !Parent(rows, i, id)
  }

  predicate Plain(name: string) {
    '.' !in name
  }

  ghost predicate Orphan(rows: map<nat, Row>, id: nat) {
    id in rows && rows[id].level > 1 && forall up :: !Parent(rows, id, up)
  }

  ghost predicate Twins(rows: map<nat, Row>, i: nat, j: nat) {
    i in rows && j in rows && i != j && rows[i] == rows[j]
  }

  /** Every product names an existing group, every application an existing product; no two rows agree. */
  ghost predicate Linked(rows: map<nat, Row>) {
    && (forall id :: id in rows ==> 1 <= rows[id].level <= 3 && Plain(rows[id].name))
    && (forall id :: id in rows && rows[id].level == 1 ==> rows[id].path == ROOT)
    && (forall id :: !Orphan(rows, id))
    && (forall i, j :: !Twins(rows, i, j))
  }

  ghost predicate Sound(t: Table) {
    && Linked(t.rows)
    && forall id :: id in t.rows ==> 0 < id <= t.last
  }

  lemma ParentUnique(rows: map<nat, Row>, id: nat, u: nat, v: nat)
    requires Parent(rows, id, u) && Parent(rows, id, v)
    ensures u == v
  {
    var p := if rows[u].level == 1 then "" else rows[u].path;
    var q := if rows[v].level == 1 then "" else rows[v].path;
    UnderInjective(p, u, q, v);
  }

  ghost function UpOf(rows: map<nat, Row>, id: nat): (up: nat)
    requires Linked(rows) && id in rows && rows[id].level > 1
    ensures Parent(rows, id, up)
  {
    assert !Orphan(rows, id);
    var up :| Parent(rows, id, up);
    up
  }

  /** The names from the group down to the row. */
  ghost function Names(rows: map<nat, Row>, id: nat): (parts: seq<string>)
    requires Linked(rows) && id in rows
    ensures |parts| == rows[id].level && parts[|parts| - 1] == rows[id].name
    ensures forall part :: part in parts ==> Plain(part)
    decreases rows[id].level
  {
    if rows[id].level == 1 then [rows[id].name] else Names(rows, UpOf(rows, id)) + [rows[id].name]
  }

  ghost predicate IsNamed(rows: map<nat, Row>, id: nat, parts: seq<string>)
    requires Linked(rows)
  {
    id in rows && Names(rows, id) == parts
  }

  ghost predicate Has(rows: map<nat, Row>, parts: seq<string>)
    requires Linked(rows)
  {
    exists id :: IsNamed(rows, id, parts)
  }

  /** The paths of the rows: "0", a slash and the id of the group, and that with a slash and the id of the product. */
  lemma PathForm(rows: map<nat, Row>, id: nat)
    requires Linked(rows) && id in rows
    ensures rows[id].level == 1 ==> rows[id].path == "0"
    ensures rows[id].level == 2 ==> rows[id].path == "/" + Decimal(UpOf(rows, id))
    ensures rows[id].level == 3 ==>
              var p := UpOf(rows, id); rows[id].path == "/" + Decimal(UpOf(rows, p)) + "/" + Decimal(p)
  {
  }

  lemma NamesBelow(rows: map<nat, Row>, id: nat, up: nat)
    requires Linked(rows) && Parent(rows, id, up)
    ensures Names(rows, id) == Names(rows, up) + [rows[id].name]
  {
    ParentUnique(rows, id, up, UpOf(rows, id));
  }

  /** The names lead to one row. */
  lemma {:induction false} NamesUnique(rows: map<nat, Row>, i: nat, j: nat)
    requires Linked(rows) && i in rows && j in rows && Names(rows, i) == Names(rows, j)
    ensures i == j
    decreases rows[i].level
  {
    if rows[i].level > 1 {
      var u, v := UpOf(rows, i), UpOf(rows, j);
      var n := |Names(rows, i)|;
      assert Names(rows, u) == Names(rows, i)[..n - 1] && Names(rows, v) == Names(rows, j)[..n - 1];
      NamesUnique(rows, u, v);
    }
    assert !Twins(rows, i, j);
  }

  /** A row keeps its names when rows are added or taken away around it. */
  lemma {:induction false} NamesKept(few: map<nat, Row>, many: map<nat, Row>, id: nat)
    requires Linked(few) && Linked(many) && few.Keys <= many.Keys && (forall i :: i in few ==> few[i] == many[i])
    requires id in few
    ensures Names(few, id) == Names(many, id)
    decreases few[id].level
  {
    if few[id].level > 1 {
      var up := UpOf(few, id);
      NamesKept(few, many, up);
      NamesBelow(many, id, up);
    }
  }

  /** Looking a name up under a row finds the row with that name under its names. */
  lemma ChildNamed(rows: map<nat, Row>, up: nat, name: string, id: nat)
    requires Linked(rows) && up in rows
    ensures id in rows && rows[id] == Row(rows[up].level + 1, Below(rows, up), name) <==>
            IsNamed(rows, id, Names(rows, up) + [name])
  {
    var parts := Names(rows, up) + [name];
    if id in rows && rows[id] == Row(rows[up].level + 1, Below(rows, up), name) {
      NamesBelow(rows, id, up);
    }
    if IsNamed(rows, id, parts) {
      var v := UpOf(rows, id);
      assert Names(rows, v) == parts[..|parts| - 1] == Names(rows, up);
      NamesUnique(rows, v, up);
    }
  }

  lemma GroupNamed(rows: map<nat, Row>, name: string, id: nat)
    requires Linked(rows)
    ensures id in rows && rows[id] == Row(1, ROOT, name) <==> IsNamed(rows, id, [name])
  {
  }

  /** What leads to a row is in the tree as well. */
  lemma {:induction false} HasPrefix(rows: map<nat, Row>, parts: seq<string>, k: nat)
    requires Linked(rows) && Has(rows, parts) && 1 <= k <= |parts|
    ensures |parts| <= 3 && Has(rows, parts[..k])
    decreases |parts|
  {
    var id :| IsNamed(rows, id, parts);
    if k == |parts| {
      assert parts[..k] == parts;
    } else {
      var up, shorter := UpOf(rows, id), parts[..|parts| - 1];
      assert IsNamed(rows, up, shorter);
      HasPrefix(rows, shorter, k);
      assert shorter[..k] == parts[..k];
    }
  }

  /** The answer of a lookup for the row with the names. */
  ghost predicate Found(rows: map<nat, Row>, id: Option<nat>, parts: seq<string>)
    requires Linked(rows)
  {
    match id
    case None => !Has(rows, parts)
    case Some(i) => IsNamed(rows, i, parts)
  }

  lemma GroupFound(rows: map<nat, Row>, name: string, id: Option<nat>)
    requires Linked(rows)
    requires id.None? ==> forall i :: i in rows ==> rows[i] != Row(1, ROOT, name)
    requires id.Some? ==> id.value in rows && rows[id.value] == Row(1, ROOT, name)
    ensures Found(rows, id, [name])
  {
    if i :| IsNamed(rows, i, [name]) {
      GroupNamed(rows, name, i);
    }
  }

  lemma ChildFound(rows: map<nat, Row>, up: nat, name: string, id: Option<nat>)
    requires Linked(rows) && up in rows
    requires id.None? ==> forall i :: i in rows ==> rows[i] != Row(rows[up].level + 1, Below(rows, up), name)
    requires id.Some? ==> id.value in rows && rows[id.value] == Row(rows[up].level + 1, Below(rows, up), name)
    ensures Found(rows, id, Names(rows, up) + [name])
  {
    if id.Some? {
      ChildNamed(rows, up, name, id.value);
    } else if i :| IsNamed(rows, i, Names(rows, up) + [name]) {
      ChildNamed(rows, up, name, i);
    }
  }

  /** The row is found by the names, and nothing hangs under it. */
  ghost predicate Removable(rows: map<nat, Row>, parts: seq<string>)
    requires Linked(rows)
  {
    exists id :: IsNamed(rows, id, parts) && Childless(rows, id)
  }

  lemma RemovableIs(rows: map<nat, Row>, parts: seq<string>, id: Option<nat>)
    requires Linked(rows) && Found(rows, id, parts)
    ensures Removable(rows, parts) <==> id.Some? && Childless(rows, id.value)
  {
    if i :| IsNamed(rows, i, parts) && Childless(rows, i) {
      assert Has(rows, parts);
      NamesUnique(rows, i, id.value);
    }
  }

  // ---- lookups and inserts ----

  /** The row answers a lookup by struct, where an empty name asks nothing. */
  predicate Like(r: Row, want: Row) {
    r.level == want.level && r.path == want.path && (want.name == "" || r.name == want.name)
  }

  /** A get-or-insert: the table after it and the id it yields. */
  ghost predicate GotOrAdded(t: Table, u: Table, want: Row, id: nat) {
    if exists i :: i in t.rows && Like(t.rows[i], want)
    then u == t && id in t.rows && Like(t.rows[id], want)
    else id == t.last + 1 && u == Table(t.rows[id := want], id)
  }

  /** The row may be put under `up`; 0 stands for the root. */
  ghost predicate Fits(rows: map<nat, Row>, row: Row, up: nat) {
    && Plain(row.name)
    && if up == 0 then row.level == 1 && row.path == ROOT
       else up in rows && rows[up].level < 3 && row.level == rows[up].level + 1 && row.path == Below(rows, up)
  }

  ghost function NamesAt(rows: map<nat, Row>, up: nat): seq<string>
    requires Linked(rows) && (up == 0 || up in rows)
  {
    if up == 0 then [] else Names(rows, up)
  }

  lemma StepKeeps(t: Table, u: Table, row: Row, up: nat, id: nat)
    requires Sound(t) && Fits(t.rows, row, up) && GotOrAdded(t, u, row, id)
    ensures Sound(u) && id in u.rows && Like(u.rows[id], row)
    ensures t.rows.Keys <= u.rows.Keys <= t.rows.Keys + {id} && forall i :: i in t.rows ==> u.rows[i] == t.rows[i]
  {
    if u != t {
      forall i ensures !Orphan(u.rows, i) {
        if i in u.rows && u.rows[i].level > 1 {
          assert Parent(u.rows, i, if i == id then up else UpOf(t.rows, i));
        }
      }
      forall i, j ensures !Twins(u.rows, i, j) {
        assert !Twins(t.rows, i, j);
      }
    }
  }

  /** The step adds one entry and loses none. */
  lemma StepHas(t: Table, u: Table, row: Row, up: nat, id: nat, parts: seq<string>, x: seq<string>)
    requires Sound(t) && Fits(t.rows, row, up) && GotOrAdded(t, u, row, id) && row.name != ""
    requires parts == NamesAt(t.rows, up) + [row.name]
    ensures Sound(u) && IsNamed(u.rows, id, parts)
    ensures Has(u.rows, x) <==> Has(t.rows, x) || x == parts
  {
    StepKeeps(t, u, row, up, id);
    if up == 0 {
      GroupNamed(u.rows, row.name, id);
    } else {
      NamesKept(t.rows, u.rows, up);
      ChildNamed(u.rows, up, row.name, id);
    }
    OneMoreNamed(t.rows, u.rows, id, x);
  }

  lemma OneMoreNamed(few: map<nat, Row>, many: map<nat, Row>, id: nat, x: seq<string>)
    requires Linked(few) && Linked(many) && id in many
    requires few.Keys <= many.Keys <= few.Keys + {id} && forall i :: i in few ==> few[i] == many[i]
    ensures Has(many, x) <==> Has(few, x) || x == Names(many, id)
  {
    if i :| IsNamed(few, i, x) {
      NamesKept(few, many, i);
      assert IsNamed(many, i, x);
    }
    if i :| IsNamed(many, i, x) {
      if i in few {
        NamesKept(few, many, i);
        assert IsNamed(few, i, x);
      }
    }
    assert IsNamed(many, id, Names(many, id));
  }

  /** Nothing hangs under a row just inserted: its path has never been given out. */
  lemma FreshChildless(t: Table, row: Row, up: nat)
    requires Sound(t) && Fits(t.rows, row, up)
    ensures Childless(t.rows[t.last + 1 := row], t.last + 1)
  {
    var id := t.last + 1;
    var rows := t.rows[id := row];
    forall i ensures !Parent(rows, i, id) {
      if Parent(rows, i, id) && i != id {
        var v := UpOf(t.rows, i);
        assert Parent(rows, i, v);
        ParentUnique(rows, i, v, id);
      }
    }
  }

  /** The three get-or-inserts of CheckPathExists. */
  ghost predicate Steps(t: Table, g: nat, t1: Table, p: nat, t2: Table, a: nat, u: Table, parts: seq<string>) {
    && |parts| >= 3
    && GotOrAdded(t, t1, Row(1, ROOT, parts[0]), g)
    && GotOrAdded(t1, t2, Row(2, Under("", g), parts[1]), p)
    && GotOrAdded(t2, u, Row(3, Under(Under("", g), p), parts[2]), a)
  }

  ghost predicate Grown(t: Table, u: Table, parts: seq<string>) {
    exists g, t1, p, t2, a :: Steps(t, g, t1, p, t2, a, u, parts)
  }

  lemma StepsKeep(t: Table, g: nat, t1: Table, p: nat, t2: Table, a: nat, u: Table, parts: seq<string>)
    requires Sound(t) && Steps(t, g, t1, p, t2, a, u, parts)
    requires forall part :: part in parts ==> Plain(part)
    ensures Sound(t1) && Sound(t2) && Sound(u)
    ensures t.rows.Keys <= u.rows.Keys && forall i :: i in t.rows ==> u.rows[i] == t.rows[i]
    ensures Fits(t.rows, Row(1, ROOT, parts[0]), 0)
    ensures Fits(t1.rows, Row(2, Under("", g), parts[1]), g)
    ensures Fits(t2.rows, Row(3, Under(Under("", g), p), parts[2]), p)
  {
    StepKeeps(t, t1, Row(1, ROOT, parts[0]), 0, g);
    StepKeeps(t1, t2, Row(2, Under("", g), parts[1]), g, p);
    StepKeeps(t2, u, Row(3, Under(Under("", g), p), parts[2]), p, a);
  }

  lemma FirstStepHas(t: Table, g: nat, t1: Table, parts: seq<string>, x: seq<string>)
    requires Sound(t) && |parts| >= 3 && Plain(parts[0]) && parts[0] != "" && GotOrAdded(t, t1, Row(1, ROOT, parts[0]), g)
    ensures Sound(t1) && IsNamed(t1.rows, g, parts[..1]) && (Has(t1.rows, x) <==> Has(t.rows, x) || x == parts[..1])
  {
    assert parts[..1] == [] + [parts[0]];
    StepHas(t, t1, Row(1, ROOT, parts[0]), 0, g, parts[..1], x);
  }

  lemma TwoStepsHave(t: Table, g: nat, t1: Table, p: nat, t2: Table, a: nat, u: Table, parts: seq<string>, x: seq<string>)
    requires Sound(t) && Steps(t, g, t1, p, t2, a, u, parts) && parts[0] != "" && parts[1] != ""
    requires forall part :: part in parts ==> Plain(part)
    ensures Sound(t2) && IsNamed(t2.rows, p, parts[..2])
    ensures Has(t2.rows, x) <==> Has(t.rows, x) || x == parts[..1] || x == parts[..2]
  {
    StepsKeep(t, g, t1, p, t2, a, u, parts);
    FirstStepHas(t, g, t1, parts, x);
    assert parts[..2] == parts[..1] + [parts[1]];
    StepHas(t1, t2, Row(2, Under("", g), parts[1]), g, p, parts[..2], x);
  }

  lemma StepsHave(t: Table, g: nat, t1: Table, p: nat, t2: Table, a: nat, u: Table, parts: seq<string>, x: seq<string>)
    requires Sound(t) && Steps(t, g, t1, p, t2, a, u, parts) && "" !in parts[..3]
    requires forall part :: part in parts ==> Plain(part)
    ensures Sound(u)
    ensures Has(u.rows, x) <==> Has(t.rows, x) || x == parts[..1] || x == parts[..2] || x == parts[..3]
  {
    var path := parts[..3];
    assert path[0] != "" && path[1] != "" && path[2] != "";
    StepsKeep(t, g, t1, p, t2, a, u, parts);
    TwoStepsHave(t, g, t1, p, t2, a, u, parts, x);
    assert path == parts[..2] + [parts[2]];
    StepHas(t2, u, Row(3, Under(Under("", g), p), parts[2]), p, a, path, x);
  }

  /** Growing keeps the tree sound and adds exactly the path and what leads to it. */
  lemma GrownMeans(t: Table, u: Table, parts: seq<string>)
    requires Sound(t) && Grown(t, u, parts) && forall part :: part in parts ==> Plain(part)
    ensures Sound(u) && forall x :: Has(t.rows, x) ==> Has(u.rows, x)
    ensures "" !in parts[..3] ==> forall x :: Has(u.rows, x) <==>
              Has(t.rows, x) || x == parts[..1] || x == parts[..2] || x == parts[..3]
  {
    var g, t1, p, t2, a :| Steps(t, g, t1, p, t2, a, u, parts);
    StepsKeep(t, g, t1, p, t2, a, u, parts);
    forall x | Has(t.rows, x) ensures Has(u.rows, x) {
      var i :| IsNamed(t.rows, i, x);
      NamesKept(t.rows, u.rows, i);
      assert IsNamed(u.rows, i, x);
    }
    if "" !in parts[..3] {
      forall x ensures Has(u.rows, x) <==> Has(t.rows, x) || x == parts[..1] || x == parts[..2] || x == parts[..3] {
        StepsHave(t, g, t1, p, t2, a, u, parts, x);
      }
    }
  }

  /** With no empty part there is one way to grow. */
  lemma GrownOnce(t: Table, u: Table, v: Table, parts: seq<string>)
    requires Sound(t) && Grown(t, u, parts) && Grown(t, v, parts)
    requires "" !in parts && forall part :: part in parts ==> Plain(part)
    ensures u == v
  {
    var g, t1, p, t2, a :| Steps(t, g, t1, p, t2, a, u, parts);
    var g', t1', p', t2', a' :| Steps(t, g', t1', p', t2', a', v, parts);
    StepsKeep(t, g, t1, p, t2, a, u, parts);
    StepOnce(t, t1, t1', Row(1, ROOT, parts[0]), g, g');
    StepOnce(t1, t2, t2', Row(2, Under("", g), parts[1]), p, p');
    StepOnce(t2, u, v, Row(3, Under(Under("", g), p), parts[2]), a, a');
  }

  lemma StepOnce(t: Table, u: Table, v: Table, row: Row, i: nat, j: nat)
    requires Sound(t) && GotOrAdded(t, u, row, i) && GotOrAdded(t, v, row, j) && row.name != ""
    ensures u == v && i == j
  {
    assert !Twins(t.rows, i, j);
  }

  lemma RemovedMeans(rows: map<nat, Row>, id: nat)
    requires Linked(rows) && id in rows && Childless(rows, id)
    ensures Linked(rows - {id})
    ensures forall x :: Has(rows - {id}, x) <==> Has(rows, x) && x != Names(rows, id)
  {
    var less := rows - {id};
    forall i ensures !Orphan(less, i) {
      if i in less && less[i].level > 1 {
        assert !Parent(rows, i, id);
        assert Parent(less, i, UpOf(rows, i));
      }
    }
    forall i, j ensures !Twins(less, i, j) {
      assert !Twins(rows, i, j);
    }
    forall x ensures Has(less, x) <==> Has(rows, x) && x != Names(rows, id) {
      OneMoreNamed(less, rows, id, x);
      if i :| IsNamed(less, i, x) {
        NamesKept(less, rows, i);
        if x == Names(rows, id) {
          NamesUnique(rows, i, id);
        }
      }
    }
  }
}
