/** The loader and the two arithmetic helpers of src/utils/helper.ts.

    The loader flattens the raw hierarchy into the parent map and the child
    map. `AddChildren` and `TransformRawData` are the two loops of the source;
    `ChildrenAdded` and `Transformed` are the functions that specify them, and
    the lemmas below state what the loaded maps hold. */
module Helper {
  import opened Types

  /** The ids of `children`, in their original order. */
  function ChildIds(children: seq<Child>): (ids: seq<string>)
    ensures |ids| == |children|
    ensures forall i :: 0 <= i < |children| ==> ids[i] == children[i].id
  {
    if children == [] then []
    else ChildIds(children[..|children| - 1]) + [children[|children| - 1].id]
  }

  /** The child-map entry the loader creates for `child` of parent `parentId`. */
  function ChildEntry(child: Child, parentId: string): ChildRecord {
    ChildRecord(child.id, child.name, child.value, 0.0, "", parentId)
  }

  /** The parent-map entry the loader creates for `row`. */
  function RowEntry(row: Row): ParentRecord {
    ParentRecord(row.id, row.name, row.value, 0.0, "", ChildIds(row.children))
  }

  /** `m` after writing the entries of `children`, first to last (a later
      duplicate id overwrites an earlier one, as an object assignment does). */
  function ChildrenAdded(m: RowChildState, parentId: string, children: seq<Child>): (r: RowChildState)
  {
    if children == [] then m
    else
      var last := children[|children| - 1];
      ChildrenAdded(m, parentId, children[..|children| - 1])[last.id := ChildEntry(last, parentId)]
  }

  /** Both maps after loading `rows`, first to last. */
  function Transformed(rows: seq<Row>): (s: State)
  {
    if rows == [] then State(map[], map[])
    else
      var prev := Transformed(rows[..|rows| - 1]);
      var row := rows[|rows| - 1];
      State(prev.rows[row.id := RowEntry(row)], ChildrenAdded(prev.children, row.id, row.children))
  }

  /** `helper`: records every child of one row in `rowChildState` and returns
      the row's child ids. The source fills the dictionary it is given in
      place; here the filled map is returned. */
  method AddChildren(rowChildState: RowChildState, parentId: string, children: seq<Child>)
    returns (res: seq<string>, filled: RowChildState)
    ensures res == ChildIds(children)
    ensures filled == ChildrenAdded(rowChildState, parentId, children)
  {
    res := [];
    filled := rowChildState;
    for i := 0 to |children|
      invariant res == ChildIds(children[..i])
      invariant filled == ChildrenAdded(rowChildState, parentId, children[..i])
    {
      var child := children[i];
      assert children[..i + 1][..i] == children[..i];
      res := res + [child.id];
      filled := filled[child.id := ChildRecord(child.id, child.name, child.value, 0.0, "", parentId)];
    }
    assert children[..|children|] == children;
  }

  /** Row ids are pairwise distinct. */
  predicate RowIdsUnique(rows: seq<Row>) {
    forall i, j :: 0 <= i < j < |rows| ==> rows[i].id != rows[j].id
  }

  /** Child ids are pairwise distinct within one row. */
  predicate ChildIdsDistinct(children: seq<Child>) {
    forall k, l :: 0 <= k < l < |children| ==> children[k].id != children[l].id
  }

  /** Child ids are pairwise distinct across the whole hierarchy. */
  predicate ChildIdsUnique(rows: seq<Row>) {
    && (forall i :: 0 <= i < |rows| ==> ChildIdsDistinct(rows[i].children))
    && (forall i, j, c, d :: 0 <= i < j < |rows| && c in rows[i].children && d in rows[j].children ==> c.id != d.id)
  }

  /** `handleTransformRawData`: both maps start empty; every row is recorded
      in the parent map with the ids that `helper` returns for its children. */
  method TransformRawData(data: Data) returns (rowState: RowState, rowChildState: RowChildState)
    ensures State(rowState, rowChildState) == Transformed(data.rows)
    ensures RowIdsUnique(data.rows) && ChildIdsUnique(data.rows) ==> WellFormed(State(rowState, rowChildState))
  {
    rowState := map[];
    rowChildState := map[];
    for i := 0 to |data.rows|
      invariant State(rowState, rowChildState) == Transformed(data.rows[..i])
    {
      var row := data.rows[i];
      assert data.rows[..i + 1][..i] == data.rows[..i];
      var ids;
      ids, rowChildState := AddChildren(rowChildState, row.id, row.children);
      rowState := rowState[row.id := ParentRecord(row.id, row.name, row.value, 0.0, "", ids)];
    }
    assert data.rows[..|data.rows|] == data.rows;
    if RowIdsUnique(data.rows) && ChildIdsUnique(data.rows) {
      TransformedWellFormed(data.rows);
    }
  }

  /** Writing the children adds exactly their ids as keys. */
  lemma {:induction false} ChildrenAddedKeys(m: RowChildState, parentId: string, children: seq<Child>)
    ensures ChildrenAdded(m, parentId, children).Keys == m.Keys + (set c | c in children :: c.id)
  {
    if children != [] {
      var n := |children| - 1;
      ChildrenAddedKeys(m, parentId, children[..n]);
      assert children == children[..n] + [children[n]];
      assert (set c | c in children :: c.id) == (set c | c in children[..n] :: c.id) + {children[n].id};
    }
  }

  /** With distinct ids, each child's entry is the one built from it. */
  lemma {:induction false} ChildrenAddedAt(m: RowChildState, parentId: string, children: seq<Child>, k: int)
    requires ChildIdsDistinct(children)
    requires 0 <= k < |children|
    ensures children[k].id in ChildrenAdded(m, parentId, children)
    ensures ChildrenAdded(m, parentId, children)[children[k].id] == ChildEntry(children[k], parentId)
  {
    var n := |children| - 1;
    if k < n {
      ChildrenAddedAt(m, parentId, children[..n], k);
    }
  }

  /** Keys that are not among the children's ids keep their entries. */
  lemma {:induction false} ChildrenAddedOther(m: RowChildState, parentId: string, children: seq<Child>, key: string)
    requires key in m
    requires forall c :: c in children ==> c.id != key
    ensures key in ChildrenAdded(m, parentId, children)
    ensures ChildrenAdded(m, parentId, children)[key] == m[key]
  {
    if children != [] {
      var n := |children| - 1;
      assert children[n] in children;
      ChildrenAddedOther(m, parentId, children[..n], key);
    }
  }

  /** The ids of the children of every row. */
  function AllChildIds(rows: seq<Row>): set<string> {
    if rows == [] then {}
    else AllChildIds(rows[..|rows| - 1]) + (set c | c in rows[|rows| - 1].children :: c.id)
  }

  /** Each id of `AllChildIds` is the id of some child of some row. */
  lemma {:induction false} AllChildIdsWitness(rows: seq<Row>, id: string) returns (i: int, k: int)
    requires id in AllChildIds(rows)
    ensures 0 <= i < |rows| && 0 <= k < |rows[i].children| && rows[i].children[k].id == id
  {
    var n := |rows| - 1;
    if id in AllChildIds(rows[..n]) {
      i, k := AllChildIdsWitness(rows[..n], id);
    } else {
      var c :| c in rows[n].children && c.id == id;
      i := n;
      k :| 0 <= k < |rows[n].children| && rows[n].children[k] == c;
    }
  }

  /** The loader creates a parent key for each row id and a child key for
      each child id, and no other key. */
  lemma {:induction false} TransformedKeys(rows: seq<Row>)
    ensures Transformed(rows).rows.Keys == (set r | r in rows :: r.id)
    ensures Transformed(rows).children.Keys == AllChildIds(rows)
  {
    if rows != [] {
      var n := |rows| - 1;
      var prev := rows[..n];
      TransformedKeys(prev);
      ChildrenAddedKeys(Transformed(prev).children, rows[n].id, rows[n].children);
      assert rows == prev + [rows[n]];
      assert (set r | r in rows :: r.id) == (set r | r in prev :: r.id) + {rows[n].id};
    }
  }

  /** With unique row ids, each row's parent entry copies its id, name and
      value, has variance 0, an empty staged input and the row's child ids. */
  lemma {:induction false} TransformedRow(rows: seq<Row>, i: int)
    requires RowIdsUnique(rows)
    requires 0 <= i < |rows|
    ensures rows[i].id in Transformed(rows).rows
    ensures Transformed(rows).rows[rows[i].id]
         == ParentRecord(rows[i].id, rows[i].name, rows[i].value, 0.0, "", ChildIds(rows[i].children))
  {
    var n := |rows| - 1;
    if i < n {
      TransformedRow(rows[..n], i);
    }
  }

  /** With unique child ids, each child's entry copies its id, name and
      value, has variance 0, an empty staged input and its row as parent. */
  lemma {:induction false} TransformedChild(rows: seq<Row>, i: int, k: int)
    requires ChildIdsUnique(rows)
    requires 0 <= i < |rows| && 0 <= k < |rows[i].children|
    ensures rows[i].children[k].id in Transformed(rows).children
    ensures Transformed(rows).children[rows[i].children[k].id]
         == ChildRecord(rows[i].children[k].id, rows[i].children[k].name, rows[i].children[k].value, 0.0, "", rows[i].id)
  {
    var n := |rows| - 1;
    var prev := rows[..n];
    if i < n {
      assert ChildIdsUnique(prev);
      TransformedChild(prev, i, k);
      var c := rows[i].children[k];
      assert c in rows[i].children;
      ChildrenAddedOther(Transformed(prev).children, rows[n].id, rows[n].children, c.id);
    } else {
      ChildrenAddedAt(Transformed(prev).children, rows[n].id, rows[n].children, k);
    }
  }

  /** A loaded parent is stored under its own id and lists, once each, its
      own children, which point back to it. */
  lemma TransformedParentLinked(rows: seq<Row>, i: int)
    requires RowIdsUnique(rows) && ChildIdsUnique(rows)
    requires 0 <= i < |rows|
    ensures var s := Transformed(rows); var p := rows[i].id;
      && p in s.rows
      && s.rows[p].id == p
      && NoDuplicates(s.rows[p].children)
      && forall c :: c in s.rows[p].children ==> c in s.children && s.children[c].parentId == p
  {
    var s := Transformed(rows);
    TransformedRow(rows, i);
    forall c | c in s.rows[rows[i].id].children
      ensures c in s.children && s.children[c].parentId == rows[i].id
    {
      var k :| 0 <= k < |rows[i].children| && ChildIds(rows[i].children)[k] == c;
      TransformedChild(rows, i, k);
    }
  }

  /** A loaded child is stored under its own id and is listed by its parent. */
  lemma TransformedChildLinked(rows: seq<Row>, i: int, k: int)
    requires RowIdsUnique(rows) && ChildIdsUnique(rows)
    requires 0 <= i < |rows| && 0 <= k < |rows[i].children|
    ensures var s := Transformed(rows); var c := rows[i].children[k].id;
      && c in s.children
      && s.children[c].id == c
      && s.children[c].parentId in s.rows
      && c in s.rows[s.children[c].parentId].children
  {
    TransformedChild(rows, i, k);
    TransformedRow(rows, i);
    assert ChildIds(rows[i].children)[k] == rows[i].children[k].id;
  }

  /** Every key of the loaded parent map is linked to its children. */
  lemma TransformedParentsLinked(rows: seq<Row>)
    requires RowIdsUnique(rows) && ChildIdsUnique(rows)
    ensures ParentsLinked(Transformed(rows))
  {
    var s := Transformed(rows);
    TransformedKeys(rows);
    forall p | p in s.rows
      ensures s.rows[p].id == p && NoDuplicates(s.rows[p].children)
      ensures forall c :: c in s.rows[p].children ==> c in s.children && s.children[c].parentId == p
    {
      assert p in (set r | r in rows :: r.id);
      var r :| r in rows && r.id == p;
      var i :| 0 <= i < |rows| && rows[i] == r;
      TransformedParentLinked(rows, i);
    }
  }

  /** A key of the loaded child map is linked to its parent. */
  lemma TransformedChildKeyLinked(rows: seq<Row>, c: string)
    requires RowIdsUnique(rows) && ChildIdsUnique(rows)
    requires c in Transformed(rows).children
    ensures var s := Transformed(rows);
      && s.children[c].id == c
      && s.children[c].parentId in s.rows
      && c in s.rows[s.children[c].parentId].children
  {
    TransformedKeys(rows);
    var i, k := AllChildIdsWitness(rows, c);
    TransformedChildLinked(rows, i, k);
  }

  /** Every key of the loaded child map is linked to its parent. */
  lemma TransformedChildrenLinked(rows: seq<Row>)
    requires RowIdsUnique(rows) && ChildIdsUnique(rows)
    ensures ChildrenLinked(Transformed(rows))
  {
    var s := Transformed(rows);
    forall c | c in s.children
      ensures s.children[c].id == c && s.children[c].parentId in s.rows
      ensures c in s.rows[s.children[c].parentId].children
    {
      TransformedChildKeyLinked(rows, c);
    }
  }

  /** Loading a document with unique ids yields a well-formed hierarchy:
      children lists and parent back-references agree. */
  lemma TransformedWellFormed(rows: seq<Row>)
    requires RowIdsUnique(rows) && ChildIdsUnique(rows)
    ensures WellFormed(Transformed(rows))
  {
    TransformedParentsLinked(rows);
    TransformedChildrenLinked(rows);
  }

  /** `getIncreasedPercentageValue`: the value raised by `percentage` percent. */
  function IncreasedPercentageValue(originalVal: real, percentage: real): real {
    originalVal + originalVal * (percentage / 100.0)
  }

  /** `getVariance`: the percentage change from `originalVal` to `newVal`.
      The source divides by `originalVal`, so it must not be zero. */
  function Variance(originalVal: real, newVal: real): real
    requires originalVal != 0.0
  {
    ((newVal - originalVal) / originalVal) * 100.0
  }

  /** Raising by `p` percent multiplies by `1 + p/100`; raising by 0 percent
      leaves the value unchanged. */
  lemma IncreasedPercentageScales(v: real, p: real)
    ensures IncreasedPercentageValue(v, p) == v * (1.0 + p / 100.0)
    ensures p == 0.0 ==> IncreasedPercentageValue(v, p) == v
  {
  }

  /** The variance is zero exactly when the value did not change. */
  lemma VarianceZero(o: real, n: real)
    requires o != 0.0
    ensures Variance(o, n) == 0.0 <==> n == o
  {
  }

  /** Raising a non-zero value by `p` percent is a change of `p` percent. */
  lemma PercentageRoundTrip(v: real, p: real)
    requires v != 0.0
    ensures Variance(v, IncreasedPercentageValue(v, p)) == p
  {
  }

  /** Raising a non-zero value by its variance towards `n` yields `n`. */
  lemma VarianceRoundTrip(o: real, n: real)
    requires o != 0.0
    ensures IncreasedPercentageValue(o, Variance(o, n)) == n
  {
  }
}
