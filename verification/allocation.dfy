/** The allocation rules of src/App.tsx: staging an input on a parent or a
    child, a child edit that aggregates bottom-up into its parent, and a
    parent edit that redistributes top-down over its children.

    Each handler is given here as a function from the state before the call
    to the state after it (or to the reason it is refused), followed by the
    lemmas that state what the handlers guarantee. Module App performs the
    same handlers step by step on the component's fields. */
module Allocation {
  import opened Types
  import opened Helper

  /** `handleUpdateParentRowInput`: stages `text` on parent `id`. */
  function StageParentInput(s: State, id: string, text: string): (t: State)
    requires id in s.rows
    ensures SameShape(s, t)
    ensures t.children == s.children
    ensures t.rows[id].inputVal == text
    ensures t.rows[id].value == s.rows[id].value && t.rows[id].variance == s.rows[id].variance
    ensures forall p :: p in s.rows && p != id ==> t.rows[p] == s.rows[p]
  {
    State(s.rows[id := s.rows[id].(inputVal := text)], s.children)
  }

  /** `handleUpdateChildInput`: stages `text` on child `id`. */
  function StageChildInput(s: State, id: string, text: string): (t: State)
    requires id in s.children
    ensures SameShape(s, t)
    ensures t.rows == s.rows
    ensures t.children[id].inputVal == text
    ensures t.children[id].value == s.children[id].value && t.children[id].variance == s.children[id].variance
    ensures forall c :: c in s.children && c != id ==> t.children[c] == s.children[c]
  {
    State(s.rows, s.children[id := s.children[id].(inputVal := text)])
  }

  /** The value an edit commits: the current value raised by `input` percent,
      or `input` itself. */
  function NewValue(mode: Mode, current: real, input: real): real {
    match mode
    case Percentage => IncreasedPercentageValue(current, input)
    case Value => input
  }

  predicate AllIn(ids: seq<string>, m: RowChildState) {
    forall id :: id in ids ==> id in m
  }

  /** The sum of the values of the children `ids`. */
  function SumValues(m: RowChildState, ids: seq<string>): real
    requires AllIn(ids, m)
  {
    if ids == [] then 0.0
    else SumValues(m, ids[..|ids| - 1]) + m[ids[|ids| - 1]].value
  }

  /** `ids.filter(child => child !== x)`. */
  function Without(ids: seq<string>, x: string): (r: seq<string>)
    ensures forall y :: y in r <==> y in ids && y != x
    ensures x !in ids ==> r == ids
    ensures multiset(r) == multiset(ids)[x := 0]
  {
    if ids == [] then []
    else
      var last := ids[|ids| - 1];
      assert ids == ids[..|ids| - 1] + [last];
      Without(ids[..|ids| - 1], x) + (if last == x then [] else [last])
  }

  /** The parent's value equals the sum of its children's values: true of
      a parent right after an edit of its own or of one of its children,
      and not enforced in general. */
  predicate Consistent(s: State, p: string)
    requires p in s.rows
  {
    AllIn(s.rows[p].children, s.children) && s.rows[p].value == SumValues(s.children, s.rows[p].children)
  }

  predicate AllConsistent(s: State) {
    forall p :: p in s.rows ==> Consistent(s, p)
  }

  /** The parent's total after a child edit: the child's new value plus the
      (pre-edit) values of the other children the parent lists. */
  function ParentTotal(s: State, childId: string, newVal: real): real
    requires childId in s.children && s.children[childId].parentId in s.rows
    requires AllIn(Without(s.rows[s.children[childId].parentId].children, childId), s.children)
  {
    newVal + SumValues(s.children, Without(s.rows[s.children[childId].parentId].children, childId))
  }

  /** The state a child edit commits once the parent's new total `sumVal`
      is known: the child takes `newVal` and the parent `sumVal`, each with
      its variance taken against its pre-edit value. */
  function ChildCommitted(s: State, childId: string, newVal: real, sumVal: real): (t: State)
    requires childId in s.children && s.children[childId].value != 0.0
    requires s.children[childId].parentId in s.rows && s.rows[s.children[childId].parentId].value != 0.0
    ensures SameShape(s, t)
    ensures forall c :: c in s.children && c != childId ==> t.children[c] == s.children[c]
    ensures forall p :: p in s.rows && p != s.children[childId].parentId ==> t.rows[p] == s.rows[p]
    ensures var pid := s.children[childId].parentId;
      && t.rows[pid].value == sumVal
      && t.rows[pid] == s.rows[pid].(value := t.rows[pid].value, variance := Variance(s.rows[pid].value, t.rows[pid].value))
    ensures
      && t.children[childId].value == newVal
      && t.children[childId] == s.children[childId].(value := newVal, variance := Variance(s.children[childId].value, newVal))
  {
    var c := s.children[childId];
    var p := s.rows[c.parentId];
    State(
      s.rows[c.parentId := p.(value := sumVal, variance := Variance(p.value, sumVal))],
      s.children[childId := c.(value := newVal, variance := Variance(c.value, newVal))])
  }

  /** The second half of `handleUpdateChild`, once the child's new value
      `newVal` is known: the child takes it, with its variance taken against
      its pre-edit value, and its parent is set to `newVal` plus the
      (pre-edit) values of the other children the parent lists, with the
      parent's variance taken against its pre-edit value. */
  function CommitChild(s: State, childId: string, newVal: real): (r: Result<State>)
    requires childId in s.children && s.children[childId].value != 0.0
    ensures r.Ok? ==> SameShape(s, r.value)
    ensures r.Ok? ==> s.children[childId].parentId in s.rows
    ensures r.Ok? ==> forall c :: c in s.children && c != childId ==> r.value.children[c] == s.children[c]
    ensures r.Ok? ==> forall p :: p in s.rows && p != s.children[childId].parentId ==> r.value.rows[p] == s.rows[p]
  {
    var c := s.children[childId];
    if c.parentId !in s.rows then Err(UnknownId)
    else
      var p := s.rows[c.parentId];
      var siblings := Without(p.children, childId);
      if !AllIn(siblings, s.children) then Err(UnknownId)
      else if p.value == 0.0 then Err(DivisionByZero)
      else Ok(ChildCommitted(s, childId, newVal, ParentTotal(s, childId, newVal)))
  }

  /** `handleUpdateChild`: the child's new value is its staged input, as a
      percentage raise of its value or as the value itself; the edit is
      refused for an unknown child, an input that does not parse or a zero
      child value (the variance would divide by it). Only the child and its
      parent change. */
  function EditChild(s: State, childId: string, mode: Mode, number: string -> Option<real>): (r: Result<State>)
    ensures r.Ok? ==> SameShape(s, r.value)
    ensures r.Ok? ==> childId in s.children && s.children[childId].parentId in s.rows
    ensures r.Ok? ==> forall c :: c in s.children && c != childId ==> r.value.children[c] == s.children[c]
    ensures r.Ok? ==> forall p :: p in s.rows && p != s.children[childId].parentId ==> r.value.rows[p] == s.rows[p]
  {
    if childId !in s.children then Err(UnknownId)
    else
      var c := s.children[childId];
      match number(c.inputVal)
      case None => Err(ParseError)
      case Some(input) =>
        if c.value == 0.0 then Err(DivisionByZero)
        else CommitChild(s, childId, NewValue(mode, c.value, input))
  }

  /** A child's share of its parent's value, in percent. */
  function Contribution(childValue: real, parentValue: real): real
    requires parentValue != 0.0
  {
    (childValue / parentValue) * 100.0
  }

  /** The part of `newVal` that a share of `contribution` percent receives. */
  function Allocated(newVal: real, contribution: real): real {
    newVal * (contribution / 100.0)
  }

  /** A child after the parent's edit: its contribution ratio of the new
      total, with its variance taken from its value to the new total. */
  function Reallocated(c: ChildRecord, parentValue: real, newVal: real): ChildRecord
    requires parentValue != 0.0 && c.value != 0.0
  {
    c.(variance := Variance(c.value, newVal), value := Allocated(newVal, Contribution(c.value, parentValue)))
  }

  /** The loop of `handleUpdateParent` over the children `ids`, first to
      last: each child takes its contribution ratio of the parent's new
      total `newVal`, and its variance is taken from its value to `newVal`.
      Values are read from the map being updated, as the source reads them
      through the alias it writes to. */
  function Redistribute(m: RowChildState, ids: seq<string>, parentValue: real, newVal: real): (r: Result<RowChildState>)
    requires parentValue != 0.0
    ensures r.Ok? ==> SameChildShape(m, r.value)
    ensures r.Ok? ==> AllIn(ids, m)
    decreases |ids|
  {
    if ids == [] then Ok(m)
    else if ids[0] !in m then Err(UnknownId)
    else
      var c := m[ids[0]];
      if c.value == 0.0 then Err(DivisionByZero)
      else Redistribute(m[ids[0] := Reallocated(c, parentValue, newVal)], ids[1..], parentValue, newVal)
  }

  /** One step of the redistribution loop. */
  lemma RedistributeStep(m: RowChildState, ids: seq<string>, parentValue: real, newVal: real)
    requires parentValue != 0.0
    requires ids != [] && ids[0] in m && m[ids[0]].value != 0.0
    ensures Redistribute(m, ids, parentValue, newVal)
      == Redistribute(m[ids[0] := Reallocated(m[ids[0]], parentValue, newVal)], ids[1..], parentValue, newVal)
  {
  }

  /** The second half of `handleUpdateParent`, once the parent's new total
      `newVal` is known: the parent takes it, with its variance taken
      against its pre-edit value, and the children are redistributed. */
  function CommitParent(s: State, parentId: string, newVal: real): (r: Result<State>)
    requires parentId in s.rows && s.rows[parentId].value != 0.0
    ensures r.Ok? ==> SameShape(s, r.value)
    ensures r.Ok? ==> AllIn(s.rows[parentId].children, s.children)
    ensures r.Ok? ==> forall p :: p in s.rows && p != parentId ==> r.value.rows[p] == s.rows[p]
  {
    var p := s.rows[parentId];
    match Redistribute(s.children, p.children, p.value, newVal)
    case Err(e) => Err(e)
    case Ok(children) =>
      Ok(State(s.rows[parentId := p.(value := newVal, variance := Variance(p.value, newVal))], children))
  }

  /** `handleUpdateParent`: commits the new value and variance on the parent
      and redistributes the new total over its children. Either everything
      is committed or, on an error, nothing is. */
  function EditParent(s: State, parentId: string, mode: Mode, number: string -> Option<real>): (r: Result<State>)
    ensures r.Ok? ==> SameShape(s, r.value)
    ensures r.Ok? ==> parentId in s.rows && AllIn(s.rows[parentId].children, s.children)
    ensures r.Ok? ==> forall p :: p in s.rows && p != parentId ==> r.value.rows[p] == s.rows[p]
  {
    if parentId !in s.rows then Err(UnknownId)
    else
      var p := s.rows[parentId];
      match number(p.inputVal)
      case None => Err(ParseError)
      case Some(input) =>
        if p.value == 0.0 then Err(DivisionByZero)
        else CommitParent(s, parentId, NewValue(mode, p.value, input))
  }

  // ---------------------------------------------------------------------
  // Sums over a parent's children list

  /** The sum only depends on the values of the listed children. */
  lemma {:induction false} SumValuesFrame(m: RowChildState, m': RowChildState, ids: seq<string>)
    requires AllIn(ids, m) && AllIn(ids, m')
    requires forall id :: id in ids ==> m[id].value == m'[id].value
    ensures SumValues(m, ids) == SumValues(m', ids)
  {
    if ids != [] {
      var n := |ids| - 1;
      assert ids[n] in ids;
      SumValuesFrame(m, m', ids[..n]);
    }
  }

  /** Scaling every listed value by `f` scales the sum by `f`. */
  lemma {:induction false} SumValuesScaled(m: RowChildState, m': RowChildState, ids: seq<string>, f: real)
    requires AllIn(ids, m) && AllIn(ids, m')
    requires forall id :: id in ids ==> m'[id].value == f * m[id].value
    ensures SumValues(m', ids) == f * SumValues(m, ids)
  {
    if ids != [] {
      var n := |ids| - 1;
      assert ids[n] in ids;
      SumValuesScaled(m, m', ids[..n], f);
    }
  }

  /** Replacing a child that is listed once: the sum is its new value plus
      the values of the others. */
  lemma {:induction false} SumValuesUpdate(m: RowChildState, ids: seq<string>, id: string, rec: ChildRecord)
    requires AllIn(ids, m) && NoDuplicates(ids) && id in ids
    ensures AllIn(ids, m[id := rec]) && AllIn(Without(ids, id), m)
    ensures SumValues(m[id := rec], ids) == rec.value + SumValues(m, Without(ids, id))
  {
    var n := |ids| - 1;
    var prefix := ids[..n];
    assert ids == prefix + [ids[n]];
    assert NoDuplicates(prefix);
    if ids[n] == id {
      assert id !in prefix;
      SumValuesFrame(m, m[id := rec], prefix);
      assert Without(ids, id) == Without(prefix, id) == prefix;
    } else {
      SumValuesUpdate(m, prefix, id, rec);
      var rest := Without(prefix, id);
      assert Without(ids, id) == rest + [ids[n]];
      assert (rest + [ids[n]])[..|rest|] == rest;
    }
  }

  /** The sum of `ids` is one listed child's value plus the sum of the others. */
  lemma SumValuesSplit(m: RowChildState, ids: seq<string>, id: string)
    requires AllIn(ids, m) && NoDuplicates(ids) && id in ids
    ensures AllIn(Without(ids, id), m)
    ensures SumValues(m, ids) == m[id].value + SumValues(m, Without(ids, id))
  {
    SumValuesUpdate(m, ids, id, m[id]);
    assert m[id := m[id]] == m;
  }

  // ---------------------------------------------------------------------
  // Arithmetic of the redistribution

  /** The source's `* 100` and `/ 100` cancel: a child whose value was `v`
      of the parent's `p` receives `v` scaled by `newVal / p`. */
  lemma ReallocatedValue(c: ChildRecord, parentValue: real, newVal: real, ratio: real)
    requires parentValue != 0.0 && c.value != 0.0
    requires ratio == newVal / parentValue
    ensures Reallocated(c, parentValue, newVal).value == ratio * c.value
  {
  }

  /** The redistribution loop rewrites each listed child (listed once) from
      its pre-edit record, and leaves every other child as it was. */
  lemma {:induction false} RedistributeAt(m: RowChildState, ids: seq<string>, parentValue: real, newVal: real)
    requires parentValue != 0.0
    requires NoDuplicates(ids)
    requires Redistribute(m, ids, parentValue, newVal).Ok?
    ensures forall c :: c in ids ==> c in m && m[c].value != 0.0
    ensures var r := Redistribute(m, ids, parentValue, newVal).value;
      forall c :: c in ids ==> r[c] == Reallocated(m[c], parentValue, newVal)
    ensures var r := Redistribute(m, ids, parentValue, newVal).value;
      forall c :: c in m && c !in ids ==> r[c] == m[c]
  {
    if ids != [] {
      var id := ids[0];
      var m1 := m[id := Reallocated(m[id], parentValue, newVal)];
      RedistributeStep(m, ids, parentValue, newVal);
      assert NoDuplicates(ids[1..]);
      assert id !in ids[1..];
      RedistributeAt(m1, ids[1..], parentValue, newVal);
      assert forall x :: x in ids ==> x == id || x in ids[1..];
    }
  }

  /** The loop writes only the listed children: any other child keeps its
      record, whether or not some child is listed twice. */
  lemma {:induction false} RedistributeUnlisted(m: RowChildState, ids: seq<string>, parentValue: real, newVal: real, c: string)
    requires parentValue != 0.0
    requires Redistribute(m, ids, parentValue, newVal).Ok?
    requires c in m && c !in ids
    ensures c in Redistribute(m, ids, parentValue, newVal).value
    ensures Redistribute(m, ids, parentValue, newVal).value[c] == m[c]
  {
    if ids != [] {
      var m1 := m[ids[0] := Reallocated(m[ids[0]], parentValue, newVal)];
      RedistributeStep(m, ids, parentValue, newVal);
      assert c !in ids[1..];
      RedistributeUnlisted(m1, ids[1..], parentValue, newVal, c);
    }
  }

  /** With each child listed once, the loop succeeds exactly when every
      listed child exists and has a non-zero value. */
  lemma {:induction false} RedistributeOutcome(m: RowChildState, ids: seq<string>, parentValue: real, newVal: real)
    requires parentValue != 0.0
    requires NoDuplicates(ids)
    ensures Redistribute(m, ids, parentValue, newVal).Ok?
        <==> forall c :: c in ids ==> c in m && m[c].value != 0.0
  {
    if ids != [] {
      var id := ids[0];
      assert forall x :: x in ids ==> x == id || x in ids[1..];
      if id in m && m[id].value != 0.0 {
        var m1 := m[id := Reallocated(m[id], parentValue, newVal)];
        RedistributeStep(m, ids, parentValue, newVal);
        assert NoDuplicates(ids[1..]);
        assert id !in ids[1..];
        RedistributeOutcome(m1, ids[1..], parentValue, newVal);
      }
    }
  }

  /** One listed child after the loop: rewritten from its pre-edit record. */
  lemma RedistributeChild(m: RowChildState, ids: seq<string>, parentValue: real, newVal: real, c: string)
    requires parentValue != 0.0
    requires NoDuplicates(ids)
    requires Redistribute(m, ids, parentValue, newVal).Ok?
    requires c in ids
    ensures c in m && m[c].value != 0.0 && c in Redistribute(m, ids, parentValue, newVal).value
    ensures Redistribute(m, ids, parentValue, newVal).value[c] == Reallocated(m[c], parentValue, newVal)
  {
    RedistributeAt(m, ids, parentValue, newVal);
  }

  /** Every redistributed child is its pre-edit value scaled by the ratio
      of the parent's new total to its old one. */
  lemma RedistributeScales(m: RowChildState, ids: seq<string>, parentValue: real, newVal: real, ratio: real, c: string)
    requires parentValue != 0.0 && ratio == newVal / parentValue
    requires NoDuplicates(ids)
    requires Redistribute(m, ids, parentValue, newVal).Ok?
    requires c in ids
    ensures c in m && c in Redistribute(m, ids, parentValue, newVal).value
    ensures Redistribute(m, ids, parentValue, newVal).value[c].value == ratio * m[c].value
  {
    RedistributeChild(m, ids, parentValue, newVal, c);
    ReallocatedValue(m[c], parentValue, newVal, ratio);
  }

  /** The redistributed children sum to the old sum scaled by the ratio of
      the parent's new total to its old one. */
  lemma RedistributeSum(m: RowChildState, ids: seq<string>, parentValue: real, newVal: real, ratio: real)
    requires parentValue != 0.0 && ratio == newVal / parentValue
    requires NoDuplicates(ids)
    requires Redistribute(m, ids, parentValue, newVal).Ok?
    ensures AllIn(ids, m) && AllIn(ids, Redistribute(m, ids, parentValue, newVal).value)
    ensures SumValues(Redistribute(m, ids, parentValue, newVal).value, ids) == ratio * SumValues(m, ids)
  {
    var r := Redistribute(m, ids, parentValue, newVal).value;
    forall c | c in ids
      ensures c in m && c in r && r[c].value == ratio * m[c].value
    {
      RedistributeScales(m, ids, parentValue, newVal, ratio, c);
    }
    SumValuesScaled(m, r, ids, ratio);
  }

  /** Dividing by the parent's old value and multiplying back cancels. */
  lemma RatioCancels(newVal: real, parentValue: real)
    requires parentValue != 0.0
    ensures (newVal / parentValue) * parentValue == newVal
  {
  }

  /** When the listed children summed to the parent's old value, the
      redistributed children sum to the new total. */
  lemma RedistributeTotal(m: RowChildState, ids: seq<string>, parentValue: real, newVal: real)
    requires parentValue != 0.0
    requires NoDuplicates(ids)
    requires Redistribute(m, ids, parentValue, newVal).Ok?
    requires AllIn(ids, m) && SumValues(m, ids) == parentValue
    ensures AllIn(ids, Redistribute(m, ids, parentValue, newVal).value)
    ensures SumValues(Redistribute(m, ids, parentValue, newVal).value, ids) == newVal
  {
    RedistributeSum(m, ids, parentValue, newVal, newVal / parentValue);
    RatioCancels(newVal, parentValue);
  }

  /** Scaling a child by the parent's ratio keeps its share of the parent. */
  lemma ShareKept(total: real, v: real, parentValue: real, ratio: real)
    requires total != 0.0 && parentValue != 0.0 && ratio == total / parentValue
    ensures (ratio * v) / total == v / parentValue
  {
    calc {
      (ratio * v) / total;
      ((total / parentValue) * v) / total;
      (total * v) / (parentValue * total);
      v / parentValue;
    }
  }

  /** A reallocated child holds the same share of the new total as it held
      of the parent's old value. */
  lemma ReallocatedShare(c: ChildRecord, parentValue: real, newVal: real)
    requires parentValue != 0.0 && newVal != 0.0 && c.value != 0.0
    ensures Reallocated(c, parentValue, newVal).value / newVal == c.value / parentValue
  {
    var ratio := newVal / parentValue;
    ReallocatedValue(c, parentValue, newVal, ratio);
    ShareKept(newVal, c.value, parentValue, ratio);
  }

  /** With a non-zero new total, each redistributed child holds the same
      share of the new total as it held of the parent's old value. */
  lemma RedistributeKeepsShare(m: RowChildState, ids: seq<string>, parentValue: real, newVal: real, c: string)
    requires parentValue != 0.0 && newVal != 0.0
    requires NoDuplicates(ids)
    requires Redistribute(m, ids, parentValue, newVal).Ok?
    requires c in ids
    ensures c in m && c in Redistribute(m, ids, parentValue, newVal).value
    ensures Redistribute(m, ids, parentValue, newVal).value[c].value / newVal == m[c].value / parentValue
  {
    RedistributeChild(m, ids, parentValue, newVal, c);
    ReallocatedShare(m[c], parentValue, newVal);
  }

  // ---------------------------------------------------------------------
  // Child edit (bottom-up aggregation)

  /** Which child edits are refused: an unknown child, an input that does
      not parse, a zero child value; on a well-formed state, exactly those
      and a zero parent value. A child edit that gets past the input checks
      is the commit of the new value. */
  lemma EditChildOutcome(s: State, childId: string, mode: Mode, number: string -> Option<real>)
    ensures childId !in s.children ==> EditChild(s, childId, mode, number) == Err(UnknownId)
    ensures childId in s.children && number(s.children[childId].inputVal).None? ==>
      EditChild(s, childId, mode, number) == Err(ParseError)
    ensures childId in s.children && number(s.children[childId].inputVal).Some? && s.children[childId].value == 0.0 ==>
      EditChild(s, childId, mode, number) == Err(DivisionByZero)
    ensures childId in s.children && number(s.children[childId].inputVal).Some? && s.children[childId].value != 0.0 ==>
      var c := s.children[childId];
      EditChild(s, childId, mode, number) == CommitChild(s, childId, NewValue(mode, c.value, number(c.inputVal).value))
    ensures WellFormed(s) && childId in s.children ==>
      var c := s.children[childId];
      c.parentId in s.rows &&
      (EditChild(s, childId, mode, number).Ok?
       <==> number(c.inputVal).Some? && c.value != 0.0 && s.rows[c.parentId].value != 0.0)
  {
    if WellFormed(s) && childId in s.children {
      var c := s.children[childId];
      assert c.parentId in s.rows;
      var siblings := Without(s.rows[c.parentId].children, childId);
      assert AllIn(siblings, s.children);
    }
  }

  /** A committed child edit sets the child's value from the staged input
      (raised by that percentage, or taken as the value) and its variance
      against its pre-edit value; in percentage mode the variance is the
      staged percentage itself. Id, name, parent and staged input stay. */
  lemma EditChildCommitsChild(s: State, childId: string, mode: Mode, number: string -> Option<real>)
    requires EditChild(s, childId, mode, number).Ok?
    ensures childId in s.children
    ensures var c := s.children[childId];
      number(c.inputVal).Some? && c.value != 0.0
    ensures var c := s.children[childId]; var input := number(c.inputVal).value;
      var t := EditChild(s, childId, mode, number).value;
      && t.children[childId] == c.(value := t.children[childId].value, variance := Variance(c.value, t.children[childId].value))
      && (mode == Value ==> t.children[childId].value == input)
      && (mode == Percentage ==> t.children[childId].value == c.value * (1.0 + input / 100.0)
                                 && t.children[childId].variance == input)
  {
    var c := s.children[childId];
    var input := number(c.inputVal).value;
    IncreasedPercentageScales(c.value, input);
    PercentageRoundTrip(c.value, input);
  }

  /** Once the checks have passed, the commit is the state with the
      parent's new total: `newVal` plus the other children's values. */
  lemma CommitChildIs(s: State, childId: string, newVal: real)
    requires childId in s.children && s.children[childId].value != 0.0
    requires s.children[childId].parentId in s.rows
    requires AllIn(Without(s.rows[s.children[childId].parentId].children, childId), s.children)
    requires s.rows[s.children[childId].parentId].value != 0.0
    ensures CommitChild(s, childId, newVal) == Ok(ChildCommitted(s, childId, newVal, ParentTotal(s, childId, newVal)))
  {
  }

  /** A committed child edit changes only the value and variance of the
      child and of its parent, each variance taken against the record's
      pre-edit value. */
  lemma CommitChildRecords(s: State, childId: string, newVal: real)
    requires childId in s.children && s.children[childId].value != 0.0
    requires CommitChild(s, childId, newVal).Ok?
    ensures var pid := s.children[childId].parentId; var t := CommitChild(s, childId, newVal).value;
      && pid in s.rows && pid in t.rows && s.rows[pid].value != 0.0
      && t.rows[pid] == s.rows[pid].(value := t.rows[pid].value, variance := Variance(s.rows[pid].value, t.rows[pid].value))
    ensures var t := CommitChild(s, childId, newVal).value;
      && childId in t.children
      && t.children[childId] == s.children[childId].(value := newVal, variance := Variance(s.children[childId].value, newVal))
  {
    CommitChildIs(s, childId, newVal);
  }

  /** On a well-formed state, a committed child edit sets the parent to the
      sum of its children after the edit, with the variance taken against
      the parent's pre-edit value; the parent's staged input stays. */
  lemma CommitChildUpdatesParent(s: State, childId: string, newVal: real)
    requires WellFormed(s)
    requires childId in s.children && s.children[childId].value != 0.0
    requires CommitChild(s, childId, newVal).Ok?
    ensures var c := s.children[childId]; var t := CommitChild(s, childId, newVal).value;
      c.parentId in s.rows && c.parentId in t.rows && childId in t.children && t.children[childId].value == newVal
    ensures var c := s.children[childId]; var p := s.rows[c.parentId]; var t := CommitChild(s, childId, newVal).value;
      AllIn(p.children, t.children) && t.rows[c.parentId].value == SumValues(t.children, p.children)
  {
    var c := s.children[childId];
    var p := s.rows[c.parentId];
    var t := CommitChild(s, childId, newVal).value;
    CommitChildIs(s, childId, newVal);
    assert t.children == s.children[childId := t.children[childId]];
    assert childId in p.children;
    SumValuesUpdate(s.children, p.children, childId, t.children[childId]);
  }

  /** On a well-formed state, when the parent equalled the sum of its
      children before a committed child edit, it moves by exactly the
      child's change. */
  lemma CommitChildParentDelta(s: State, childId: string, newVal: real)
    requires WellFormed(s)
    requires childId in s.children && s.children[childId].value != 0.0
    requires CommitChild(s, childId, newVal).Ok?
    requires Consistent(s, s.children[childId].parentId)
    ensures var c := s.children[childId]; var t := CommitChild(s, childId, newVal).value;
      t.rows[c.parentId].value - s.rows[c.parentId].value == newVal - c.value
  {
    var c := s.children[childId];
    var p := s.rows[c.parentId];
    assert childId in p.children;
    SumValuesSplit(s.children, p.children, childId);
    CommitChildIs(s, childId, newVal);
  }

  /** On a well-formed state, a committed child edit does not change
      whether a parent other than the child's equals the sum of its own
      children. */
  lemma CommitChildOtherParent(s: State, childId: string, newVal: real, q: string)
    requires WellFormed(s)
    requires childId in s.children && s.children[childId].value != 0.0
    requires CommitChild(s, childId, newVal).Ok?
    requires q in s.rows && q != s.children[childId].parentId
    ensures q in CommitChild(s, childId, newVal).value.rows
    ensures Consistent(s, q) <==> Consistent(CommitChild(s, childId, newVal).value, q)
  {
    var t := CommitChild(s, childId, newVal).value;
    assert childId !in s.rows[q].children;
    SumValuesFrame(s.children, t.children, s.rows[q].children);
  }

  /** On a well-formed state, a committed child edit leaves its parent equal
      to the sum of its children, and keeps every parent equal to the sum
      of its children if every parent was before. */
  lemma CommitChildKeepsConsistency(s: State, childId: string, newVal: real)
    requires WellFormed(s)
    requires childId in s.children && s.children[childId].value != 0.0
    requires CommitChild(s, childId, newVal).Ok?
    ensures var t := CommitChild(s, childId, newVal).value;
      && s.children[childId].parentId in t.rows
      && Consistent(t, s.children[childId].parentId)
      && (AllConsistent(s) ==> AllConsistent(t))
  {
    var t := CommitChild(s, childId, newVal).value;
    var pid := s.children[childId].parentId;
    CommitChildUpdatesParent(s, childId, newVal);
    if AllConsistent(s) {
      forall q | q in t.rows && q != pid
        ensures Consistent(t, q)
      {
        CommitChildOtherParent(s, childId, newVal, q);
      }
    }
  }

  // ---------------------------------------------------------------------
  // Parent edit (top-down redistribution)

  /** Which parent edits are refused: an unknown parent, an input that does
      not parse, a zero parent value; on a well-formed state, exactly those
      and the edits where some child's value is zero. A parent edit that
      gets past the input checks is the commit of the new total. */
  lemma EditParentOutcome(s: State, parentId: string, mode: Mode, number: string -> Option<real>)
    ensures parentId !in s.rows ==> EditParent(s, parentId, mode, number) == Err(UnknownId)
    ensures parentId in s.rows && number(s.rows[parentId].inputVal).None? ==>
      EditParent(s, parentId, mode, number) == Err(ParseError)
    ensures parentId in s.rows && number(s.rows[parentId].inputVal).Some? && s.rows[parentId].value == 0.0 ==>
      EditParent(s, parentId, mode, number) == Err(DivisionByZero)
    ensures parentId in s.rows && number(s.rows[parentId].inputVal).Some? && s.rows[parentId].value != 0.0 ==>
      var p := s.rows[parentId];
      EditParent(s, parentId, mode, number) == CommitParent(s, parentId, NewValue(mode, p.value, number(p.inputVal).value))
    ensures WellFormed(s) && parentId in s.rows ==>
      var p := s.rows[parentId];
      (EditParent(s, parentId, mode, number).Ok?
       <==> (number(p.inputVal).Some? && p.value != 0.0
             && forall c :: c in p.children ==> c in s.children && s.children[c].value != 0.0))
  {
    if WellFormed(s) && parentId in s.rows {
      var p := s.rows[parentId];
      if number(p.inputVal).Some? && p.value != 0.0 {
        RedistributeOutcome(s.children, p.children, p.value, NewValue(mode, p.value, number(p.inputVal).value));
      }
    }
  }

  /** A committed parent edit sets the parent's value from the staged input
      and its variance against its pre-edit value; in percentage mode the
      variance is the staged percentage. Id, name, children list and staged
      input stay. */
  lemma EditParentCommitsParent(s: State, parentId: string, mode: Mode, number: string -> Option<real>)
    requires EditParent(s, parentId, mode, number).Ok?
    ensures parentId in s.rows
    ensures var p := s.rows[parentId];
      number(p.inputVal).Some? && p.value != 0.0
    ensures var p := s.rows[parentId]; var input := number(p.inputVal).value;
      var t := EditParent(s, parentId, mode, number).value;
      && t.rows[parentId] == p.(value := t.rows[parentId].value, variance := Variance(p.value, t.rows[parentId].value))
      && (mode == Value ==> t.rows[parentId].value == input)
      && (mode == Percentage ==> t.rows[parentId].value == p.value * (1.0 + input / 100.0)
                                 && t.rows[parentId].variance == input)
  {
    var p := s.rows[parentId];
    var input := number(p.inputVal).value;
    IncreasedPercentageScales(p.value, input);
    PercentageRoundTrip(p.value, input);
  }

  /** The commit's children are the redistribution of the pre-edit
      children over the new total. */
  lemma CommitParentChildren(s: State, parentId: string, newVal: real)
    requires parentId in s.rows && s.rows[parentId].value != 0.0
    requires CommitParent(s, parentId, newVal).Ok?
    ensures var p := s.rows[parentId];
      && Redistribute(s.children, p.children, p.value, newVal).Ok?
      && CommitParent(s, parentId, newVal).value.children == Redistribute(s.children, p.children, p.value, newVal).value
  {
  }

  /** A committed parent edit rewrites each of its children (listed once)
      from its pre-edit record: its value becomes its share of the new
      total, and its variance is taken from its pre-edit value to the
      parent's NEW TOTAL; id, name, parent and staged input stay. */
  lemma CommitParentChild(s: State, parentId: string, newVal: real, c: string)
    requires parentId in s.rows && s.rows[parentId].value != 0.0
    requires NoDuplicates(s.rows[parentId].children)
    requires CommitParent(s, parentId, newVal).Ok?
    requires c in s.rows[parentId].children
    ensures c in s.children && s.children[c].value != 0.0
    ensures c in CommitParent(s, parentId, newVal).value.children
    ensures var t := CommitParent(s, parentId, newVal).value;
      t.children[c] == s.children[c].(value := t.children[c].value, variance := Variance(s.children[c].value, newVal))
    ensures CommitParent(s, parentId, newVal).value.children[c].value
      == Allocated(newVal, Contribution(s.children[c].value, s.rows[parentId].value))
  {
    var p := s.rows[parentId];
    CommitParentChildren(s, parentId, newVal);
    RedistributeChild(s.children, p.children, p.value, newVal, c);
  }

  /** A committed parent edit changes no child outside its children list. */
  lemma CommitParentOtherChild(s: State, parentId: string, newVal: real, c: string)
    requires parentId in s.rows && s.rows[parentId].value != 0.0
    requires CommitParent(s, parentId, newVal).Ok?
    requires c in s.children && c !in s.rows[parentId].children
    ensures c in CommitParent(s, parentId, newVal).value.children
    ensures CommitParent(s, parentId, newVal).value.children[c] == s.children[c]
  {
    var p := s.rows[parentId];
    CommitParentChildren(s, parentId, newVal);
    RedistributeUnlisted(s.children, p.children, p.value, newVal, c);
  }

  /** A committed parent edit keeps the parent equal to the sum of its
      children when it was before: the children then sum to the new total. */
  lemma CommitParentKeepsOwnConsistency(s: State, parentId: string, newVal: real)
    requires parentId in s.rows && s.rows[parentId].value != 0.0
    requires NoDuplicates(s.rows[parentId].children)
    requires CommitParent(s, parentId, newVal).Ok?
    requires Consistent(s, parentId)
    ensures parentId in CommitParent(s, parentId, newVal).value.rows
    ensures Consistent(CommitParent(s, parentId, newVal).value, parentId)
  {
    var p := s.rows[parentId];
    CommitParentChildren(s, parentId, newVal);
    RedistributeTotal(s.children, p.children, p.value, newVal);
  }

  /** On a well-formed state, a committed parent edit does not change
      whether any other parent equals the sum of its own children. */
  lemma CommitParentOtherParent(s: State, parentId: string, newVal: real, q: string)
    requires WellFormed(s)
    requires parentId in s.rows && s.rows[parentId].value != 0.0
    requires CommitParent(s, parentId, newVal).Ok?
    requires q in s.rows && q != parentId
    ensures q in CommitParent(s, parentId, newVal).value.rows
    ensures Consistent(s, q) <==> Consistent(CommitParent(s, parentId, newVal).value, q)
  {
    var t := CommitParent(s, parentId, newVal).value;
    forall c | c in s.rows[q].children
      ensures c in t.children && t.children[c] == s.children[c]
    {
      assert s.children[c].parentId == q;
      CommitParentOtherChild(s, parentId, newVal, c);
    }
    SumValuesFrame(s.children, t.children, s.rows[q].children);
  }

  /** On a well-formed state, a committed parent edit keeps every parent
      equal to the sum of its children if every parent was before. */
  lemma CommitParentKeepsConsistency(s: State, parentId: string, newVal: real)
    requires WellFormed(s) && AllConsistent(s)
    requires parentId in s.rows && s.rows[parentId].value != 0.0
    requires CommitParent(s, parentId, newVal).Ok?
    ensures AllConsistent(CommitParent(s, parentId, newVal).value)
  {
    var t := CommitParent(s, parentId, newVal).value;
    forall q | q in t.rows
      ensures Consistent(t, q)
    {
      if q == parentId {
        CommitParentKeepsOwnConsistency(s, parentId, newVal);
      } else {
        CommitParentOtherParent(s, parentId, newVal, q);
      }
    }
  }
}
