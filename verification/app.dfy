/** The component of src/App.tsx: its two state maps and the four handlers,
    performed step by step as the source does, each proved to produce the
    state that module Allocation gives for it. */
module App {
  import opened Types
  import opened Helper
  import opened Allocation

  /** The `forEach` of `handleUpdateChild` that adds the values of `ids` to
      `start`; `None` where the source would read a missing entry. */
  method SumChildren(rowChildState: RowChildState, ids: seq<string>, start: real) returns (sum: Option<real>)
    ensures sum == if AllIn(ids, rowChildState) then Some(start + SumValues(rowChildState, ids)) else None
  {
    var sumVal := start;
    for i := 0 to |ids|
      invariant AllIn(ids[..i], rowChildState)
      invariant sumVal == start + SumValues(rowChildState, ids[..i])
    {
      if ids[i] !in rowChildState {
        return None;
      }
      assert ids[..i + 1][..i] == ids[..i];
      sumVal := sumVal + rowChildState[ids[i]].value;
    }
    assert ids[..|ids|] == ids;
    return Some(sumVal);
  }

  /** The `forEach` of `handleUpdateParent`: rewrites every child of `ids`
      in `res`, reading each child's value from `res` itself. */
  method RedistributeChildren(rowChildState: RowChildState, ids: seq<string>, parentValue: real, newVal: real)
    returns (r: Result<RowChildState>)
    requires parentValue != 0.0
    ensures r == Redistribute(rowChildState, ids, parentValue, newVal)
  {
    var res := rowChildState;
    for i := 0 to |ids|
      invariant Redistribute(res, ids[i..], parentValue, newVal) == Redistribute(rowChildState, ids, parentValue, newVal)
    {
      var child := ids[i];
      assert ids[i..][0] == child && ids[i..][1..] == ids[i + 1..];
      if child !in res {
        return Err(UnknownId);
      }
      if res[child].value == 0.0 {
        return Err(DivisionByZero);
      }
      var contribution := Contribution(res[child].value, parentValue);
      var nv := Allocated(newVal, contribution);
      RedistributeStep(res, ids[i..], parentValue, newVal);
      res := res[child := res[child].(variance := Variance(res[child].value, newVal), value := nv)];
    }
    return Ok(res);
  }

  /** What a handler reports: done, or refused with the reason. */
  datatype Outcome = Pass | Fail(error: Error)

  function OutcomeOf(r: Result<State>): Outcome {
    if r.Ok? then Pass else Fail(r.error)
  }

  /** The component's state: the parent map and the child map, filled by the
      loader when the component mounts and rewritten by each handler as one
      atomic update. */
  class Calculator {
    var rowState: RowState
    var rowChildState: RowChildState

    function Snapshot(): State
      reads this
    {
      State(rowState, rowChildState)
    }

    /** Mounting: the loader fills both maps from the raw document. */
    constructor (data: Data)
      ensures Snapshot() == Transformed(data.rows)
      ensures RowIdsUnique(data.rows) && ChildIdsUnique(data.rows) ==> WellFormed(Snapshot())
    {
      var rows, children := TransformRawData(data);
      rowState := rows;
      rowChildState := children;
    }

    method UpdateParentRowInput(id: string, text: string)
      requires id in rowState
      modifies this
      ensures Snapshot() == StageParentInput(old(Snapshot()), id, text)
      ensures WellFormed(old(Snapshot())) ==> WellFormed(Snapshot())
    {
      rowState := rowState[id := rowState[id].(inputVal := text)];
      if WellFormed(old(Snapshot())) {
        ShapePreservesWellFormed(old(Snapshot()), Snapshot());
      }
    }

    method UpdateChildInput(id: string, text: string)
      requires id in rowChildState
      modifies this
      ensures Snapshot() == StageChildInput(old(Snapshot()), id, text)
      ensures WellFormed(old(Snapshot())) ==> WellFormed(Snapshot())
    {
      rowChildState := rowChildState[id := rowChildState[id].(inputVal := text)];
      if WellFormed(old(Snapshot())) {
        ShapePreservesWellFormed(old(Snapshot()), Snapshot());
      }
    }

    /** `handleUpdateChild`. */
    method UpdateChild(childId: string, mode: Mode, number: string -> Option<real>) returns (outcome: Outcome)
      modifies this
      ensures outcome == OutcomeOf(EditChild(old(Snapshot()), childId, mode, number))
      ensures outcome == Pass ==> Snapshot() == EditChild(old(Snapshot()), childId, mode, number).value
      ensures outcome != Pass ==> Snapshot() == old(Snapshot())
      ensures WellFormed(old(Snapshot())) ==> WellFormed(Snapshot())
    {
      ghost var s := Snapshot();
      ghost var expected := EditChild(s, childId, mode, number);
      if childId !in rowChildState {
        return Fail(UnknownId);
      }
      var c := rowChildState[childId];
      var parsed := number(c.inputVal);
      if parsed.None? {
        return Fail(ParseError);
      }
      if c.value == 0.0 {
        return Fail(DivisionByZero);
      }
      var newVal := NewValue(mode, c.value, parsed.value);
      assert expected == CommitChild(s, childId, newVal);
      var variance := Variance(c.value, newVal);
      var parentId := c.parentId;
      if parentId !in rowState {
        return Fail(UnknownId);
      }
      var sum := SumChildren(rowChildState, Without(rowState[parentId].children, childId), newVal);
      if sum.None? {
        return Fail(UnknownId);
      }
      if rowState[parentId].value == 0.0 {
        return Fail(DivisionByZero);
      }
      var sumVal := sum.value;
      var parentVariance := Variance(rowState[parentId].value, sumVal);
      CommitChildIs(s, childId, newVal);
      assert sumVal == ParentTotal(s, childId, newVal);
      assert expected == Ok(ChildCommitted(s, childId, newVal, sumVal));
      rowChildState := rowChildState[childId := c.(value := newVal, variance := variance)];
      rowState := rowState[parentId := rowState[parentId].(value := sumVal, variance := parentVariance)];
      if WellFormed(s) {
        ShapePreservesWellFormed(s, Snapshot());
      }
      return Pass;
    }

    /** `handleUpdateParent`: the children are rewritten in a working copy
        of the child map that is committed together with the parent. */
    method UpdateParent(parentId: string, mode: Mode, number: string -> Option<real>) returns (outcome: Outcome)
      modifies this
      ensures outcome == OutcomeOf(EditParent(old(Snapshot()), parentId, mode, number))
      ensures outcome == Pass ==> Snapshot() == EditParent(old(Snapshot()), parentId, mode, number).value
      ensures outcome != Pass ==> Snapshot() == old(Snapshot())
      ensures WellFormed(old(Snapshot())) ==> WellFormed(Snapshot())
    {
      if parentId !in rowState {
        return Fail(UnknownId);
      }
      var p := rowState[parentId];
      var parsed := number(p.inputVal);
      if parsed.None? {
        return Fail(ParseError);
      }
      if p.value == 0.0 {
        return Fail(DivisionByZero);
      }
      var newVal := NewValue(mode, p.value, parsed.value);
      var variance := Variance(p.value, newVal);
      var res := RedistributeChildren(rowChildState, p.children, p.value, newVal);
      if res.Err? {
        return Fail(res.error);
      }
      rowState := rowState[parentId := p.(value := newVal, variance := variance)];
      rowChildState := res.value;
      if WellFormed(old(Snapshot())) {
        ShapePreservesWellFormed(old(Snapshot()), Snapshot());
      }
      return Pass;
    }
  }
}
