# Grouping sibling shapes by class

A Dafny model of the `groupShapesByClass` plugin of the SVG optimiser, the
function `exports.fn` in `plugins/groupShapesByClass.js`. The plugin is
called on one parent element and rewrites its ordered child list:

1. **Guard.** It does nothing unless the item is an element, is not a
   `switch`, and has at least two children.
2. **Scan.** One pass over the children records, for each class name, the
   first run of at least two adjacent children whose class attribute is that
   single name. The runs are kept in a `Map` from class name to index list,
   in insertion order.
3. **Replace.** For each recorded run in map order, the plugin:
   - removes the class from the members;
   - wraps them in a new `g` element that carries the class;
   - splices the wrapper over the run.

   A running count of removed positions turns original indexes into
   positions in the list as it shrinks.

The main result is `RunReplacement.ReplaceRuns`. It shows that the
offset-tracked splice loop produces exactly the single-pass rebuild
`SinglePass.Pass`. That rebuild copies every child outside a run, puts each
run's wrapper at the position of its first member, and drops the run's other
members.

Modules, in dependency order:

- `Seqs`: generic facts about slices and concatenation.
- `ClassList`: a class list as a sequence of names. It covers the attribute
  text (names joined by single spaces), `remove` and `add`.
- `Nodes`: the node datatype, stripping a class from a member, and the
  wrapper.
- `RunDetection`: the scan (lines 49-71). The JavaScript `Map` is an
  insertion-ordered list of `Entry(className, indexes)`. The predicate
  `Table` describes the result independently of the loop: each entry is the
  first maximal run of its class, the entries are disjoint and ordered, and
  every qualifying pair has an entry for its class. The scan meets this
  description, and it is the only map that does.
- `SinglePass`: the one-pass rebuild around the first `k` runs, stated for
  any element type.
- `RunReplacement`: the replacement loop (lines 75-107) and its proof
  against the rebuild.
- `GroupShapesByClass`: the entry point with its guard, and properties
  stated on the children themselves.
- `DocumentedCases`: the plugin's documentation example, and a parent whose
  class has two separate runs.

Two consequences of the code are worth stating:

- **A second application can group more.** Every wrapper the plugin creates
  is left alone when the plugin runs again
  (`GroupShapesByClass.WrapperIsStable`). The parent itself is not stable.
  When a class has a second, separate run, the first application records
  only the first run and leaves the later one alone. A second application
  then groups it (`DocumentedCases.LaterRunNeedsSecondPass`).
- **Children without a class list.** The code reads `child.class` of every
  child (lines 51-52), so it would throw on a child without a class list,
  such as a text node. The model requires element children once the guard
  passes.

## Model

| member | source | states |
|---|---|---|
| GroupShapesByClass.Apply | plugins/groupShapesByClass.js:37-108 | An item that is not an element, is a `switch`, is empty or has fewer than two children comes back unchanged. Otherwise only the child list changes, and it becomes the one-pass rebuild around the runs the scan records. |
| GroupShapesByClass.Applicable | plugins/groupShapesByClass.js:44 | The guard: the item is processed only if it is an element, is not a `switch`, is not empty and has at least two children. `Apply` returns every other item unchanged. |
| GroupShapesByClass.QualifiesIffSingleSharedName | plugins/groupShapesByClass.js:55-59 | Child `i` extends a run with the previous child if and only if there is a previous child, both have the same class list, and that list holds exactly one name. Children with no class or with several classes never take part. |
| GroupShapesByClass.ChildPlacement | plugins/groupShapesByClass.js:104 | In the new child list, a child outside every recorded run appears unchanged. The first member of run `a` is replaced by run `a`'s wrapper. Each lands at the count of entries produced by the children before it, so relative order is kept. |
| GroupShapesByClass.MemberLosesClass | plugins/groupShapesByClass.js:80-84 | Every member of a recorded run carries exactly the run's class, so removing that class leaves the member with no class. |
| GroupShapesByClass.WrapperIsStable | plugins/groupShapesByClass.js:75-107 | Applying the plugin again to the children of a wrapper it created changes nothing. |
| GroupShapesByClass.WrapperMembersClassless | plugins/groupShapesByClass.js:76-84 | Every member of a wrapper the plugin created is left with no class at all. |
| GroupShapesByClass.ClasslessUntouched | plugins/groupShapesByClass.js:55-59 | A parent none of whose children carries a class comes back with its child list exactly as it was. |
| GroupShapesByClass.ClasslessOutsideRuns | plugins/groupShapesByClass.js:55-59 | A child that carries no class lies outside every recorded run, whatever its siblings carry. With `ChildPlacement`, the new child list holds it unchanged. |
| GroupShapesByClass.Runs | plugins/groupShapesByClass.js:47-71 | The runs recorded over the children are intervals of at least two in-range indexes, each ending before the next begins. |
| RunDetection.Detect | plugins/groupShapesByClass.js:49-71 | The finished map satisfies the table description: every entry is the first maximal run of its class, the class names are distinct, entries come in index order without overlap, and every qualifying pair has an entry for its class. |
| RunDetection.Qualifies | plugins/groupShapesByClass.js:50-59 | Child `i` forms a qualifying pair with the child before it: there is a previous child, its class text is non-empty and equal to child `i`'s, and that text holds no space. `QualifiesIffSingleSharedName` restates this on class lists. |
| RunDetection.Step | plugins/groupShapesByClass.js:49-70 | One iteration of the scan at child `i`: a qualifying pair opens its class if absent and then appends `i` if the list ends at `i - 1`; anything else leaves the map alone. `StepKeepsTable` and the `Step*Result` lemmas state its effect. |
| RunDetection.OpenIfAbsent | plugins/groupShapesByClass.js:60-65 | A class not yet in the map is stored with the list `[i - 1]`. Afterwards the class is always present. |
| RunDetection.AppendIfNext | plugins/groupShapesByClass.js:66-69 | `i` is pushed onto the class's list only when that list ends at `i - 1`. Otherwise the map is unchanged. |
| RunDetection.DetectUpToTable | plugins/groupShapesByClass.js:49-71 | After visiting the first `n` children, the map satisfies the table description for those `n` children. |
| RunDetection.StepKeepsTable | plugins/groupShapesByClass.js:55-70 | Visiting one more child keeps the table description. |
| RunDetection.DetectIsTheTable | plugins/groupShapesByClass.js:49-71 | Any map that meets the table description over all children equals the scan's result. |
| RunDetection.TableUnique | plugins/groupShapesByClass.js:49-71 | Two maps that both meet the table description over the same children are equal. |
| RunDetection.RunUnique | plugins/groupShapesByClass.js:60-69 | A class has at most one first maximal run: two such runs of the same class are the same entry. |
| RunDetection.LayoutUnique | plugins/groupShapesByClass.js:75 | Two disjoint, index-ordered run lists with the same entries list them in the same order. This is the order the replacement visits them in. |
| RunDetection.NoRunsIffNoPairs | plugins/groupShapesByClass.js:49-71 | The map is empty if and only if no adjacent pair of children qualifies. |
| RunDetection.FirstRunOnly | plugins/groupShapesByClass.js:60-69 | A child carrying the class of recorded run `a` belongs to some recorded run if and only if it lies between that run's first and last index. A later run of the same class is not recorded. |
| RunDetection.MembersCarryClass | plugins/groupShapesByClass.js:55-69 | Every index recorded for a class lies within that run, and the child there has exactly that class text. |
| RunDetection.StepOpensResult | plugins/groupShapesByClass.js:62-69 | The first qualifying pair of a class not yet in the map adds the entry `[i - 1, i]` at the end of the map. |
| RunDetection.StepExtendsResult | plugins/groupShapesByClass.js:66-69 | A qualifying pair right after its class's recorded list appends `i` to that list, in place. |
| RunDetection.StepIgnoresResult | plugins/groupShapesByClass.js:66-69 | A qualifying pair of a class whose list ends before `i - 1` leaves the map as it is. |
| RunDetection.StepSkips | plugins/groupShapesByClass.js:59 | Visiting a child that does not form a qualifying pair keeps the table description with one more child seen. |
| RunDetection.StepOpens | plugins/groupShapesByClass.js:62-65 | Opening a new entry keeps the table description. |
| RunDetection.StepExtends | plugins/groupShapesByClass.js:66-69 | Extending the run that ends at `i - 1` keeps the table description. |
| RunDetection.StepIgnores | plugins/groupShapesByClass.js:66-69 | Dropping a pair of a class whose run ended earlier keeps the table description. |
| RunDetection.Find | plugins/groupShapesByClass.js:60 | The lookup finds the first entry of the class, and finds nothing exactly when no entry has that class. |
| RunDetection.Get | plugins/groupShapesByClass.js:60 | `Map.get` yields the stored list of the class, and yields a list exactly when the lookup finds the class. |
| RunDetection.Put | plugins/groupShapesByClass.js:63 | Storing a list under an existing class keeps its place and every other entry. A new class is appended at the end. Afterwards the lookup returns the stored list. |
| SinglePass.RoleInCases | plugins/groupShapesByClass.js:104 | In the rebuild, a child opens a run exactly at its first index and is inside it up to its last index. It is copied exactly when no replaced run covers it. |
| SinglePass.Placement | plugins/groupShapesByClass.js:104 | A copied child appears unchanged in the rebuild, and a run's first child is replaced there by the run's group. Each appears at the length of the rebuild of the children before it. Later run members leave nothing behind. |
| SinglePass.Order | plugins/groupShapesByClass.js:104 | Children that leave something behind keep their relative order. |
| SinglePass.PassPrefix | plugins/groupShapesByClass.js:104 | Rebuilding more children only appends to the rebuild of fewer. |
| SinglePass.PassToEndOfRun | plugins/groupShapesByClass.js:104-106 | Replacing one more run extends the rebuild. The new part is the untouched children before the run, then the run's group. |
| SinglePass.NoRunsCopies | plugins/groupShapesByClass.js:75 | With no runs recorded, the child list is unchanged. |
| RunReplacement.ReplaceRuns | plugins/groupShapesByClass.js:75-107 | The splice loop with the removed-positions counter ends with exactly the one-pass rebuild, shorter than the original by the sum of (run length - 1). |
| RunReplacement.ReplaceStep | plugins/groupShapesByClass.js:76-106 | One round of the loop (pick members, strip the class, wrap, splice, bump the counter) takes the state after `k` runs to the state after `k + 1`. |
| RunReplacement.Round | plugins/groupShapesByClass.js:76-104 | One round for run `e`: the members picked at `idx - removed`, stripped of the class, wrapped and spliced over the run. When the run fits in the list, the list shrinks by the run length minus one. |
| RunReplacement.Picked | plugins/groupShapesByClass.js:76-84 | The members the plugin picks from the shrunken list at `idx - removed`, in index order, each with the run's class removed. |
| RunReplacement.Members | plugins/groupShapesByClass.js:76-84 | The run's members taken from the original list, in index order, each with the run's class removed. `PickedMembers` shows the picked members are these. |
| RunReplacement.SpliceRound | plugins/groupShapesByClass.js:104-106 | Splicing run `k`'s group at `indexes[0] - removed` over `indexes.length` positions extends the finished part to the end of run `k`. |
| RunReplacement.PickedMembers | plugins/groupShapesByClass.js:76-84 | Before run `k` is replaced, every `idx - removed` addresses a child, and that child is the original child `idx`. So the wrapper built from the picked members is the run's wrapper over its original members. |
| RunReplacement.Addressing | plugins/groupShapesByClass.js:77 | With `removed` positions gone before the untouched suffix, original index `idx` is found at `idx - removed`. |
| RunReplacement.SpliceAround | plugins/groupShapesByClass.js:104-106 | Splicing over a run in the untouched suffix keeps that shape and adds `count - 1` to the removed positions. |
| RunReplacement.SpliceContent | plugins/groupShapesByClass.js:104 | For an in-range start and count, the positions before `start` are kept, `x` is placed at `start`, and the rest follows the replaced range. A start past the end appends `x`. |
| RunReplacement.StageAtStart | plugins/groupShapesByClass.js:41 | Before the first round nothing is finished and nothing is removed. |
| RunReplacement.SplicedAtEnd | plugins/groupShapesByClass.js:75-107 | After the last round, the list is the whole rebuild, shorter by the removed count. |
| Nodes.Strip | plugins/groupShapesByClass.js:80-84 | Removing the run's class from a member keeps its tag, other attributes and children, and keeps every other class. A node without a class list is unchanged. |
| Nodes.Wrapper | plugins/groupShapesByClass.js:86-102 | The new group is a `g` element whose class list is exactly the run's class. It has no other attributes and holds the members in their given order. |
| ClassList.SplitValue | plugins/groupShapesByClass.js:51-52 | The attribute text of a well-formed class list parses back to the list. |
| ClassList.ValueInjective | plugins/groupShapesByClass.js:59 | Comparing attribute texts compares class lists: two well-formed lists with equal texts are equal. |
| ClassList.SingleNameValue | plugins/groupShapesByClass.js:57-59 | The attribute text of a well-formed list is non-empty and space-free exactly when the list holds one name. |
| ClassList.Value | plugins/groupShapesByClass.js:51-52 | `getClassValue()`: the names joined by single spaces. `SplitValue` shows this text parses back to the list. |
| ClassList.OneNameValue | plugins/groupShapesByClass.js:57-59 | For any class list, a non-empty attribute text without a space means the list holds exactly one entry. |
| ClassList.Remove | plugins/groupShapesByClass.js:82 | Removing a name drops exactly that name, keeps every other name, leaves a list without the name as it is, and keeps a well-formed list well formed. The order of the kept names is stated by `RemoveKeepsOrder`. |
| ClassList.RemoveKeepsOrder | plugins/groupShapesByClass.js:82 | Removing the name at position `k` of a well-formed list leaves the names before it and after it, in their order. |
| ClassList.Add | plugins/groupShapesByClass.js:102 | Adding a name makes it present, keeps the existing names in front, and adds nothing if the name is already there. |
| ClassList.RemoveUndoesAdd | plugins/groupShapesByClass.js:102 | Adding an absent name and then removing it restores the list. |
| DocumentedCases.DocExample | plugins/groupShapesByClass.js:17-30 | The documented example, as the plugin produces it. `first` and `second` become one `g` of class `cls-1` whose members have no class left. `third`, `fourth` and `fifth` follow unchanged. |
| DocumentedCases.DocScan | plugins/groupShapesByClass.js:49-71 | On the example's class texts, the scan records `cls-1` over indexes 0 and 1 only. |
| DocumentedCases.TwoRunsScan | plugins/groupShapesByClass.js:60-69 | On `a a b a a` the scan records only the first pair. The later pair of `a` is dropped. |
| DocumentedCases.RescanAfterFirstRun | plugins/groupShapesByClass.js:49-71 | On `a b a a` the scan records the pair at indexes 2 and 3. |
| DocumentedCases.LaterRunNeedsSecondPass | plugins/groupShapesByClass.js:60-69 | On `a a b a a` one application groups only the first pair and leaves the later pair unchanged. A second application groups that pair, so one application is not a fixed point. |

## Left out

- `plugins/preOptimizationChecks.js` is not part of this model. It works
  through a CSS selector engine and console output that are not in the
  source here.
- The node library's object construction is left out. This covers the
  `.clone()` deep copy (lines 86-99), the `prefix`/`local` fields, the
  `CSSStyleDeclaration` attached to the group (line 101), and the layout of
  the `attrs` object. Nodes are immutable values: tag, class list, other
  attributes, children.
- The surrounding `perItemReverse` traversal (line 3) and the meaning of
  `fn`'s return value belong to the plugin runner and are not modelled.
  `GroupShapesByClass.Apply` rewrites one parent.
- GroupShapesByClass.Apply: requires every child to be an element once the
  guard passes. The source would throw reading `child.class` on, for
  example, a text node (lines 51-52), and that exception is not modelled.
- The class list library is not in the source here. Its attribute text is
  modelled as the names joined by single spaces. Whitespace handling inside
  the library is not modelled. Well-formed class lists (non-empty,
  space-free, distinct names) are needed only for
  `GroupShapesByClass.QualifiesIffSingleSharedName`, and for the
  `ClassList` facts that parse the text back or remove a name.
- In the source the group's `class` value is first set as an attribute, and
  then added again through the class list (lines 90-102). The model keeps
  the resulting single-name list only.
- The source removes the class from the member objects in place (line 82)
  and the inserted group holds clones of those stripped members (line 99).
  With immutable values both come to the same thing: the group holds
  stripped copies, and the originals leave the parent's list.
- The clamping of the splice for out-of-range positions is modelled in
  `RunReplacement.SpliceContent`. The proof shows the loop never reaches it.
