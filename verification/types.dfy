/** The records of the two-level allocation calculator (src/App.tsx, types
    Child, Row, Data, RowState and RowChildState) and the structural
    invariants that hold between the parent map and the child map. */
module Types {

  /** A child descriptor of the raw hierarchy document. */
  datatype Child = Child(id: string, name: string, value: real)

  /** A parent descriptor of the raw hierarchy document, owning its children in order. */
  datatype Row = Row(id: string, name: string, value: real, children: seq<Child>)

  /** The raw hierarchy document: `{rows: [...]}`. */
  datatype Data = Data(rows: seq<Row>)

  /** An entry of the parent map (RowState). `children` lists the ids of the
      row's children in their original order. */
  datatype ParentRecord = ParentRecord(
    id: string,
    name: string,
    value: real,
    variance: real,
    inputVal: string,
    children: seq<string>)

  /** An entry of the child map (RowChildState); `parentId` is a back-reference. */
  datatype ChildRecord = ChildRecord(
    id: string,
    name: string,
    value: real,
    variance: real,
    inputVal: string,
    parentId: string)

  type RowState = map<string, ParentRecord>
  type RowChildState = map<string, ChildRecord>

  /** Both maps together, as the handlers see them between two edits. */
  datatype State = State(rows: RowState, children: RowChildState)

  /** Which button was pressed: "allocate %" or "allocate val". */
  datatype Mode = Percentage | Value

  /** The result of JavaScript's `Number(text)`: `None` stands for `NaN`. */
  datatype Option<T> = None | Some(value: T)

  /** Why an edit was refused. The model refuses instead of computing NaN,
      Infinity or reading a missing entry; a refused edit changes nothing. */
  datatype Error = ParseError | DivisionByZero | UnknownId

  datatype Result<T> = Ok(value: T) | Err(error: Error)

  predicate NoDuplicates(ids: seq<string>) {
    forall i, j :: 0 <= i < j < |ids| ==> ids[i] != ids[j]
  }

  /** Every parent is stored under its own id, lists each child once, and each
      listed child exists and points back to that parent. */
  predicate ParentsLinked(s: State) {
    forall p :: p in s.rows ==>
      && s.rows[p].id == p
      && NoDuplicates(s.rows[p].children)
      && forall c :: c in s.rows[p].children ==> c in s.children && s.children[c].parentId == p
  }

  /** Every child is stored under its own id and is listed by the parent it points to. */
  predicate ChildrenLinked(s: State) {
    forall c :: c in s.children ==>
      && s.children[c].id == c
      && s.children[c].parentId in s.rows
      && c in s.rows[s.children[c].parentId].children
  }

  /** The hierarchy invariant of a loaded session. */
  predicate WellFormed(s: State) {
    ParentsLinked(s) && ChildrenLinked(s)
  }

  /** Same parent keys, and each parent keeps its id, name and children list. */
  predicate SameRowShape(a: RowState, b: RowState) {
    && a.Keys == b.Keys
    && forall p :: p in a && p in b ==>
         a[p].id == b[p].id && a[p].name == b[p].name && a[p].children == b[p].children
  }

  /** Same child keys, and each child keeps its id, name and parent. */
  predicate SameChildShape(a: RowChildState, b: RowChildState) {
    && a.Keys == b.Keys
    && forall c :: c in a && c in b ==>
         a[c].id == b[c].id && a[c].name == b[c].name && a[c].parentId == b[c].parentId
  }

  /** Two states with the same hierarchy: only values, variances and staged
      inputs may differ. */
  predicate SameShape(s: State, t: State) {
    SameRowShape(s.rows, t.rows) && SameChildShape(s.children, t.children)
  }

  /** The hierarchy invariant depends on the shape only, so every operation
      that keeps the shape keeps the invariant. */
  lemma ShapePreservesWellFormed(s: State, t: State)
    requires SameShape(s, t)
    requires WellFormed(s)
    ensures WellFormed(t)
  {
    forall p | p in t.rows
      ensures t.rows[p].id == p && NoDuplicates(t.rows[p].children)
      ensures forall c :: c in t.rows[p].children ==> c in t.children && t.children[c].parentId == p
    {
      assert p in s.rows;
    }
    forall c | c in t.children
      ensures t.children[c].id == c && t.children[c].parentId in t.rows
      ensures c in t.rows[t.children[c].parentId].children
    {
      assert c in s.children;
    }
  }
}
