/** Worked sessions of the calculator on one small document: a parent of
    value 100 with children of values 30 and 70, loaded, given a staged
    input and edited. */
module Scenarios {
  import opened Types
  import opened Helper
  import opened Allocation

  /** The document: one row "P" of value 100 with children "c1" (30) and "c2" (70). */
  function Document(): Data {
    Data([Row("P", "Parent", 100.0, [Child("c1", "First", 30.0), Child("c2", "Second", 70.0)])])
  }

  /** A stand-in for `Number(text)` on the inputs staged below. */
  function Parse(text: string): Option<real> {
    if text == "50" then Some(50.0)
    else if text == "200" then Some(200.0)
    else if text == "10" then Some(10.0)
    else None
  }

  /** The session right after loading. */
  function Loaded(): State {
    State(
      map["P" := ParentRecord("P", "Parent", 100.0, 0.0, "", ["c1", "c2"])],
      map["c1" := ChildRecord("c1", "First", 30.0, 0.0, "", "P"),
          "c2" := ChildRecord("c2", "Second", 70.0, 0.0, "", "P")])
  }

  /** Loading the document gives both maps with zero variances, empty
      staged inputs and the children in their original order. */
  lemma LoadScenario()
    ensures Transformed(Document().rows) == Loaded()
  {
    var row := Document().rows[0];
    assert Document().rows[..0] == [];
    assert row.children[..1] == [row.children[0]] && row.children[..1][..0] == [];
    assert ChildIds(row.children) == ["c1", "c2"];
    assert ChildrenAdded(map[], "P", row.children) == Loaded().children;
  }

  /** The loaded session is linked both ways, and the parent equals the sum
      of its children. */
  lemma LoadedConsistent()
    ensures WellFormed(Loaded())
    ensures AllConsistent(Loaded())
  {
    var s := Loaded();
    assert s.rows["P"].children == ["c1", "c2"];
    assert SumValues(s.children, ["c1", "c2"]) == 100.0 by {
      assert ["c1", "c2"][..1] == ["c1"];
      assert ["c1"][..0] == [];
    }
  }

  /** In a session shaped like the loaded one, the siblings of "c1" are
      "c2" alone, and they sum to the value of "c2". */
  lemma SiblingsOfFirst(s: State)
    requires s.rows.Keys == {"P"} && s.rows["P"].children == ["c1", "c2"]
    requires "c2" in s.children
    ensures Without(s.rows["P"].children, "c1") == ["c2"]
    ensures AllIn(["c2"], s.children) && SumValues(s.children, ["c2"]) == s.children["c2"].value
  {
    assert ["c1", "c2"][..1] == ["c1"];
    assert ["c1"][..0] == [];
    assert ["c2"][..0] == [];
  }

  /** Bottom-up: editing "c1" to the value 50 makes the parent 120 with a
      variance of 20 percent; "c2" is untouched. */
  lemma ChildValueScenario()
    ensures var s := StageChildInput(Loaded(), "c1", "50");
      && EditChild(s, "c1", Value, Parse).Ok?
      && var t := EditChild(s, "c1", Value, Parse).value;
      && t.children["c1"].value == 50.0
      && t.children["c2"] == s.children["c2"]
      && t.rows["P"].value == 120.0
      && t.rows["P"].variance == 20.0
  {
    var s := StageChildInput(Loaded(), "c1", "50");
    SiblingsOfFirst(s);
    CommitChildIs(s, "c1", 50.0);
  }

  /** Percentage mode: raising "c1" (30) by 10 percent gives 33 with a
      variance of 10 percent, and the parent becomes 103. */
  lemma ChildPercentageScenario()
    ensures var s := StageChildInput(Loaded(), "c1", "10");
      && EditChild(s, "c1", Percentage, Parse).Ok?
      && var t := EditChild(s, "c1", Percentage, Parse).value;
      && t.children["c1"].value == 33.0
      && t.children["c1"].variance == 10.0
      && t.rows["P"].value == 103.0
      && t.rows["P"].variance == 3.0
  {
    var s := StageChildInput(Loaded(), "c1", "10");
    SiblingsOfFirst(s);
    assert IncreasedPercentageValue(30.0, 10.0) == 33.0;
    CommitChildIs(s, "c1", 33.0);
  }

  /** Top-down: setting the parent to 200 gives the children 60 and 140
      (shares 0.3 and 0.7 kept), each child's variance taken against the
      parent's new total: (200 - 30) / 30 * 100 for "c1". */
  lemma ParentValueScenario()
    ensures var s := StageParentInput(Loaded(), "P", "200");
      && EditParent(s, "P", Value, Parse).Ok?
      && var t := EditParent(s, "P", Value, Parse).value;
      && t.rows["P"].value == 200.0
      && t.rows["P"].variance == 100.0
      && t.children["c1"].value == 60.0
      && t.children["c2"].value == 140.0
      && t.children["c1"].variance == 1700.0 / 3.0
      && t.children["c2"].variance == 13000.0 / 70.0
  {
    var s := StageParentInput(Loaded(), "P", "200");
    var m1 := s.children["c1" := Reallocated(s.children["c1"], 100.0, 200.0)];
    var m2 := m1["c2" := Reallocated(m1["c2"], 100.0, 200.0)];
    RedistributeStep(s.children, ["c1", "c2"], 100.0, 200.0);
    assert ["c1", "c2"][1..] == ["c2"];
    RedistributeStep(m1, ["c2"], 100.0, 200.0);
    assert ["c2"][1..] == [];
    assert Redistribute(s.children, ["c1", "c2"], 100.0, 200.0) == Ok(m2);
  }
}
