# Two-level allocation calculator (lumel), modelled in Dafny

lumel is a small calculator over a two-level hierarchy. Parent rows own
child rows, and each record carries a value, a variance and a staged input
text. The variance is the percentage change from the value the record held
just before the last edit. The core modelled here has four parts:

- **the loader** (`helper` and `handleTransformRawData` in
  `src/utils/helper.ts`). It flattens the document `{rows: [...]}` into a
  parent map and a child map. Every record starts with variance 0 and an
  empty staged input. A parent lists its children's ids in order, and each
  child points back to its parent.
- **the arithmetic helpers** `getIncreasedPercentageValue` and `getVariance`.
- **the four handlers of the component** in `src/App.tsx`:
  - two stage a text input on a parent or on a child;
  - `handleUpdateChild` sets a child's new value (a percentage raise or an
    absolute value), then sets its parent to the sum of its children
    (bottom-up);
  - `handleUpdateParent` sets a parent's new total, then gives each child the
    same share of the new total it held of the old one (top-down). Each
    child's variance is taken from the child's old value to the parent's new
    total.
- **the record types** of `src/App.tsx`.

The project is split into modules:

- `types.dfy` (module `Types`): the records and the two maps, the hierarchy
  invariant `WellFormed`, and the "same shape" relation that every edit
  keeps.
- `helper.dfy` (module `Helper`):
  - the loader's two loops as methods (`AddChildren`, `TransformRawData`),
    specified by the functions `ChildrenAdded` and `Transformed`;
  - the two arithmetic helpers, with their round trips.
- `allocation.dfy` (module `Allocation`): each handler as a function from
  the state before the call to the state after it, or to the reason it is
  refused. `EditChild` and `EditParent` check the input. `CommitChild` and
  `CommitParent` commit a new value. The lemmas state what the handlers
  guarantee:
  - exactly which edits are refused;
  - which records change, and how;
  - the parent equals the sum of its children after an edit;
  - shares are kept by a parent edit.
- `app.dfy` (module `App`): the component as a class `Calculator` whose
  two fields are the two maps. Each handler is a method. The two loops of
  the handlers are methods with loop invariants, and each method is proved
  to produce the state module `Allocation` gives.
- `scenarios.dfy` (module `Scenarios`): worked sessions on a parent of 100
  with children 30 and 70.

Numbers are Dafny `real`s. A computation the source would carry out on a
zero denominator, producing `NaN` or `Infinity`, is refused in the model
with `DivisionByZero`. An id the source would look up without finding,
which throws a `TypeError`, is refused with `UnknownId`. A staged input that
does not parse is refused with `ParseError`. A refused edit changes nothing.
Parsing the staged text is a parameter `number: string -> Option<real>`
standing for JavaScript's `Number`, where `None` stands for `NaN`.

`handleUpdateParent` reads each child's value from the map it is rewriting:
`res` is the same object as `rowChildState` (`src/App.tsx:111`, 114).
`Redistribute` does the same. `RedistributeAt` proves that when the parent
lists each child once, every child is rewritten from its record before the
edit.

## Model

| member | source | states |
|---|---|---|
| Types.ShapePreservesWellFormed | src/App.tsx:22-44 | The hierarchy invariant (parents and children linked both ways, each child listed once) depends only on ids, names, children lists and parent links. So any state with the same shape as a well-formed one is well-formed. |
| Helper.ChildIds | src/utils/helper.ts:4-7 | The id list has one entry per child: the id of the child at the same position. |
| Helper.AddChildren | src/utils/helper.ts:3-19 | `helper`'s loop returns exactly the children's ids in order. Its map is the given map with one entry written per child, first to last. |
| Helper.TransformRawData | src/utils/helper.ts:21-37 | The loader's loop, starting from two empty maps, yields `Transformed(rows)`. With unique row ids and unique child ids the result is well-formed. |
| Helper.ChildrenAddedKeys | src/utils/helper.ts:6-16 | Writing a row's children adds exactly their ids as keys. |
| Helper.ChildrenAddedAt | src/utils/helper.ts:8-15 | With distinct child ids, each child's entry copies id, name and value, with variance 0, an empty input and the row as parent. |
| Helper.ChildrenAddedOther | src/utils/helper.ts:6-16 | Keys that are not ids of the row's children keep their entries. |
| Helper.TransformedKeys | src/utils/helper.ts:22-34 | The parent map's keys are exactly the row ids. The child map's keys are exactly the child ids. Nothing else is added. |
| Helper.TransformedRow | src/utils/helper.ts:25-33 | With unique row ids, each row's entry copies id, name and value, with variance 0, an empty input, and the row's child ids in original order. |
| Helper.TransformedChild | src/utils/helper.ts:8-15 | With unique child ids, each child's entry copies id, name and value, with variance 0, an empty input, and the id of the row that owns it as parent. |
| Helper.TransformedParentLinked | src/utils/helper.ts:25-33 | A loaded parent is stored under its id. It lists each child once, and each listed child exists and points back to it. |
| Helper.TransformedChildLinked | src/utils/helper.ts:8-15 | A loaded child is stored under its id. Its parent exists and lists it. |
| Helper.TransformedParentsLinked | src/utils/helper.ts:21-37 | Every key of the loaded parent map is linked to its children. |
| Helper.TransformedChildKeyLinked | src/utils/helper.ts:21-37 | Any key of the loaded child map is linked to an existing parent that lists it. |
| Helper.TransformedChildrenLinked | src/utils/helper.ts:21-37 | Every key of the loaded child map is linked to its parent. |
| Helper.TransformedWellFormed | src/utils/helper.ts:21-37 | Loading a document with unique ids yields a well-formed hierarchy. |
| Helper.IncreasedPercentageValue | src/utils/helper.ts:39-41 | The value raised by p percent. `IncreasedPercentageScales` proves it is the value times 1 + p/100 and the value itself at 0 percent. `PercentageRoundTrip` proves its variance from the old value is p. |
| Helper.Variance | src/utils/helper.ts:43-45 | The percentage change from a non-zero old value. `VarianceZero` proves it is 0 exactly when nothing changed. `VarianceRoundTrip` proves that raising the old value by it gives the new value. |
| Helper.IncreasedPercentageScales | src/utils/helper.ts:39-41 | Raising by p percent multiplies by 1 + p/100. Raising by 0 percent leaves the value unchanged. |
| Helper.VarianceZero | src/utils/helper.ts:43-45 | For a non-zero old value, the variance is 0 exactly when the value did not change. |
| Helper.PercentageRoundTrip | src/utils/helper.ts:39-45 | Raising a non-zero value by p percent has variance p. |
| Helper.VarianceRoundTrip | src/utils/helper.ts:39-45 | Raising a non-zero value by its variance towards n yields n. |
| Allocation.StageParentInput | src/App.tsx:55-57 | Staging text on a parent changes only that parent's staged input. Its value, variance and every other record stay the same. |
| Allocation.StageChildInput | src/App.tsx:59-61 | Staging text on a child changes only that child's staged input. Its value, variance and every other record stay the same. |
| Allocation.NewValue | src/App.tsx:66-77 | The value an edit commits: the old value raised by the parsed percentage, or the parsed value. `EditChildCommitsChild` and `EditParentCommitsParent` prove the committed record holds it, with variance exactly p in percentage mode. The parent's branch is at `src/App.tsx:95-108`. |
| Allocation.SumValues | src/App.tsx:81-84 | The sum of the listed children's values. `SumValuesUpdate`, `SumValuesSplit` and `SumValuesFrame` prove it equals the source's accumulation and depends only on the listed children. |
| Allocation.Without | src/App.tsx:80 | The filter keeps exactly the ids different from the edited child, each as many times as it is listed: the multiset of the result is that of the list with the child removed. It is the identity when that child is not listed. |
| Allocation.ChildCommitted | src/App.tsx:72-88 | The committed state keeps the shape, and no record other than the child and its parent changes. The child gets the new value and the parent the new total. Each variance is taken against that record's value before the edit. Both staged inputs stay. |
| Allocation.CommitChild | src/App.tsx:79-89 | A commit keeps the shape and leaves every child but the edited one, and every parent but its own, unchanged. |
| Allocation.EditChild | src/App.tsx:63-90 | A child edit keeps the shape and changes only the child and its parent, which exist. |
| Allocation.Redistribute | src/App.tsx:111-120 | A completed redistribution keeps the child map's shape, and every listed child exists. |
| Allocation.CommitParent | src/App.tsx:97-120 | A committed parent edit keeps the shape and leaves every other parent unchanged. All of the parent's children exist. |
| Allocation.EditParent | src/App.tsx:92-121 | A parent edit keeps the shape and leaves every other parent unchanged. The parent and all of its children exist. |
| Allocation.SumValuesFrame | src/App.tsx:81-84 | The sum over a children list depends only on the values of the listed children. |
| Allocation.SumValuesScaled | src/App.tsx:81-84 | Scaling every listed value by f scales the sum by f. |
| Allocation.SumValuesUpdate | src/App.tsx:79-84 | Replacing a child listed once makes the sum the child's new value plus the other children's values, which is what the source's loop accumulates. |
| Allocation.SumValuesSplit | src/App.tsx:80-84 | The sum is one listed child's value plus the sum over the others. |
| Allocation.Contribution | src/App.tsx:114 | A child's share of the parent's old value, in percent. `ReallocatedValue` proves that, passed through `Allocated`, it gives the child's value times new total / old total. |
| Allocation.Allocated | src/App.tsx:115 | The part of the new total that a share receives. `ReallocatedShare` proves the child then holds of the new total the share it held of the old. |
| Allocation.Reallocated | src/App.tsx:114-117 | A child after the parent's edit. `RedistributeChild` proves it keeps id, name, parent and staged input, takes the allocated value, and takes the variance from its old value to the new total. |
| Allocation.ReallocatedValue | src/App.tsx:114-115 | The `* 100` and `/ 100` cancel: a child receives its old value times new total / old total. |
| Allocation.RedistributeAt | src/App.tsx:111-118 | With each child listed once, the loop rewrites every listed child from its record before the edit, so reading from the map being written is harmless. Every unlisted child is unchanged. |
| Allocation.RedistributeUnlisted | src/App.tsx:111-120 | The loop writes only the children the parent lists, even when the list repeats a child. Every other child keeps its record. |
| Allocation.RedistributeOutcome | src/App.tsx:113-118 | With each child listed once, the loop succeeds exactly when every listed child exists and has a non-zero value. |
| Allocation.RedistributeChild | src/App.tsx:113-117 | A listed child after the loop is its old record with the source's new value and with variance from its old value to the parent's new total. |
| Allocation.RedistributeScales | src/App.tsx:114-117 | Every redistributed child is its old value times the ratio of the new total to the old total. |
| Allocation.RedistributeSum | src/App.tsx:111-120 | The redistributed children sum to their old sum times the same ratio. |
| Allocation.RedistributeTotal | src/App.tsx:111-120 | If the children summed to the parent's old value, they sum to the new total afterwards. |
| Allocation.ReallocatedShare | src/App.tsx:114-115 | A rewritten child holds the same share of the new total as it held of the old one. |
| Allocation.RedistributeKeepsShare | src/App.tsx:111-118 | For a non-zero new total, every child of the parent keeps its share. |
| Allocation.EditChildOutcome | src/App.tsx:63-90 | A child edit is refused for an unknown child (UnknownId), an unparsable input (ParseError) or a zero child value (DivisionByZero). Otherwise it is the commit of the new value. On a well-formed state it succeeds exactly when the input parses and both the child's and the parent's values are non-zero. |
| Allocation.EditChildCommitsChild | src/App.tsx:63-77 | In value mode the child takes the parsed input. In percentage mode it takes old × (1 + p/100) and its variance is exactly p. In both modes the variance is against the child's old value, and id, name, parent and staged input stay. |
| Allocation.CommitChildRecords | src/App.tsx:72-88 | Only value and variance of the child and its parent change. The child's variance is against its old value and the parent's against its old value. Both staged inputs are kept. |
| Allocation.CommitChildUpdatesParent | src/App.tsx:79-88 | On a well-formed state the child holds the new value, and the parent equals the sum of its children after the edit. |
| Allocation.CommitChildParentDelta | src/App.tsx:79-88 | If the parent equalled its children's sum before, it moves by exactly the child's change. |
| Allocation.CommitChildOtherParent | src/App.tsx:86-89 | Whether any other parent equals its children's sum does not change. |
| Allocation.CommitChildKeepsConsistency | src/App.tsx:79-89 | The edited child's parent equals its children's sum afterwards. If every parent did before, every parent does after. |
| Allocation.EditParentOutcome | src/App.tsx:92-121 | A parent edit is refused for an unknown parent, an unparsable input or a zero parent value. Otherwise it is the commit of the new total. On a well-formed state it succeeds exactly when the input parses, the parent's value is non-zero and every child's value is non-zero. |
| Allocation.EditParentCommitsParent | src/App.tsx:95-108 | The parent takes the parsed input, or old × (1 + p/100) with variance exactly p. Its variance is against its old value, and id, name, children list and staged input stay. |
| Allocation.CommitParentChild | src/App.tsx:113-117 | Each child of the parent gets newVal × (old child / old parent) as the source computes it, with variance from its old value to the parent's new total. Id, name, parent and staged input stay. |
| Allocation.CommitParentOtherChild | src/App.tsx:111-120 | No child outside the parent's list changes, whether or not the list repeats a child. |
| Allocation.CommitParentKeepsOwnConsistency | src/App.tsx:111-120 | If the parent equalled its children's sum before, the children sum to the new total afterwards. |
| Allocation.CommitParentOtherParent | src/App.tsx:111-120 | On a well-formed state, whether any other parent equals its children's sum does not change. |
| Allocation.CommitParentKeepsConsistency | src/App.tsx:92-121 | On a well-formed state, if every parent equalled its children's sum before, every parent does after. |
| App.SumChildren | src/App.tsx:81-84 | The `forEach` accumulation returns the start value plus the sum of the listed values, or reports a missing child. |
| App.RedistributeChildren | src/App.tsx:111-120 | The in-place loop over the children list produces exactly `Redistribute`, including its errors. |
| App.Calculator.constructor | src/App.tsx:124-128 | Mounting fills both fields with the loaded maps, which are well-formed when the document's ids are unique. |
| App.Calculator.UpdateParentRowInput | src/App.tsx:55-57 | The new state is the staged state, and well-formedness is kept. |
| App.Calculator.UpdateChildInput | src/App.tsx:59-61 | The new state is the staged state, and well-formedness is kept. |
| App.Calculator.UpdateChild | src/App.tsx:63-90 | The method reports the refusal `EditChild` gives and leaves the state unchanged, or commits exactly `EditChild`'s state. Well-formedness is kept. |
| App.Calculator.UpdateParent | src/App.tsx:92-121 | The method reports the refusal `EditParent` gives and leaves the state unchanged, or commits exactly `EditParent`'s state. Well-formedness is kept. |
| Scenarios.LoadScenario | src/utils/helper.ts:21-37 | Loading a parent of 100 with children 30 and 70 gives the expected maps. |
| Scenarios.LoadedConsistent | src/utils/helper.ts:21-37 | That loaded session is well-formed, and its parent equals its children's sum. |
| Scenarios.ChildValueScenario | src/App.tsx:63-90 | Editing child 30 to 50 makes the parent 120 with variance 20. The sibling is untouched. |
| Scenarios.ChildPercentageScenario | src/App.tsx:63-90 | Raising child 30 by 10 percent gives 33 with variance 10. The parent becomes 103 with variance 3. |
| Scenarios.ParentValueScenario | src/App.tsx:92-121 | Setting the parent to 200 gives children 60 and 140. Their variances are taken against the new total: 1700/3 and 13000/70. |

## Left out

- The rendering of the table, buttons and rounded display (`src/App.tsx` from line 130). This is presentation.
- The `null` state before mounting (`src/App.tsx:50-51`): the handlers are only reachable after the loader has run. The JSON document import is a constructor parameter.
- JavaScript's `Number` parsing of staged text (`src/App.tsx:68-69`, 74, 96, 103). It is the parameter `number`; `""` parsing to 0 is whatever that parameter returns.
- IEEE floating point: rounding, `NaN` and `Infinity`. Values are exact reals, and a zero denominator is refused instead of producing `NaN` or `Infinity` (`src/utils/helper.ts:44`, `src/App.tsx:114`).
- React's batching and its same-reference bail-out on `setRowChildState(res)`. Each handler is one atomic update of both maps.
- EditChild: the source queues the child's update before it looks up the parent and the siblings, so a missing parent or sibling (a `TypeError`) would leave the child updated. The model refuses the whole edit with `UnknownId`. On a well-formed state this cannot happen.
- EditParent: the source rewrites children in place as it goes, so a missing child (a `TypeError`) part-way through leaves the earlier children rewritten. The model refuses the whole edit with `UnknownId`. On a well-formed state this cannot happen.
- EditChild: a zero child value or zero parent value makes the source store `Infinity` or `NaN` as a variance. The model refuses with `DivisionByZero`.
- EditParent: a zero parent value or a zero child value makes the source store `NaN` or `Infinity` values and variances. The model refuses with `DivisionByZero`.
- EditChild: a staged text that `Number` cannot parse gives `NaN`, which the source stores as the child's value and variance and as the parent's value and variance (`src/App.tsx:68-76`, 81-88). The model refuses with `ParseError`.
- EditParent: a staged text that `Number` cannot parse gives `NaN`, which the source stores as the parent's value and variance and as every child's value and variance (`src/App.tsx:96-117`). The model refuses with `ParseError`.
- StageParentInput: requires the id to be a key. With an unknown id the source would add a partial record holding only `inputVal`, which the record type cannot represent. The staging inputs exist only for rendered rows.
- StageChildInput: requires the id to be a key, for the same reason.
- AddChildren: the source fills the dictionary it is given in place. The method returns the filled map instead, because a map is a value here.
- The field `label` of the source's records is called `name` in the model.
