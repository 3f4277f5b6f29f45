# Tree-checkbox conduction of `useTreeLink`

This project models the core of `useTreeLink`, a React hook for a
checkbox tree. It covers the hook's conduction engine and its controller.

**The index.** The hook flattens a forest of nodes into an index from key to
entry. Each entry holds:
- the node;
- its children, each tagged with an inherited disabled flag;
- its depth;
- its parent's key and parent node;
- `parentDisabled`.

It then groups the entries by depth into a level index.

**The two conductors.** They work over the level index.
- `conductCheckTrue` cascades checks from each level down to the enabled
  children. It then walks from the deepest level up, checking a parent whose
  enabled children are all checked and half-checking a parent with a checked
  or half-checked enabled child.
- `conductCheckFalse` clears the enabled children of every enabled node that
  is neither checked nor half-checked. It then walks up, unchecking a parent
  with an unchecked enabled child and rebuilding the half set from empty.

Both conductors drop the checked keys from the half set.

**The controller.** It holds:
- the index and the level index;
- the visible checked and half-checked keys;
- the last committed value (`trueCheckedData`).

It reacts to three things:
- a new tree;
- a new external value, which is conducted unless its checked keys are
  already committed;
- a click on a node, which is conducted up or down.

It also has a select-all control with two modes:
- **Blocking:** the enabled roots are conducted one by one and their
  results are joined.
- **Non-blocking:** every enabled node is selected.

**How it is organised.**
- Each `onChange` call is recorded in the sequence `notified`.
- Module `TreeTypes` (types.dfy) holds the shared values.
- `Indexer` (indexer.dfy) and `Levels` (levels.dfy) build the index and the
  level index with the loops and the recursion the hook uses.
- `Conduct` (conduct.dfy) holds the conductors. They are specified by the
  level-by-level functions `CascadeTo`, `ClearTo` and `AggregateFrom`.
- `ConductProps` and `ConductResults` prove what the conductors return.
- `Controller` (controller.dfy) is the hook as a class, and
  `ControllerProps` proves what its handlers do.
- `RoundTrip` (round_trip.dfy) proves that a click undone by a second
  click gives the state back.
- `SelectAllExample` holds the input behind the finding below.

Keys are strings, and the one falsy string key is `""`. The state arrays of the
hook are built from `Set`s and hold no repeats, so they are modelled as
sets.

## Model

| member | source | states |
|---|---|---|
| Indexer.DeepFlatTreeData | src/useTreeLink.tsx:101-136 | the map the recursive walk returns is the map it was given, overwritten by the pre-order, last-write-wins index of the forest |
| Indexer.VisitItem | src/useTreeLink.tsx:108-134 | visiting one node stores its entry (level, parent key, parent node only for a truthy parent key, inherited disabled flag, tagged children) and then indexes its children one level down under it |
| Indexer.Init | src/useTreeLink.tsx:94-142 | for a forest with unique keys, the index holds exactly the forest's keys and is well formed: each entry is keyed by its node, placed as its parent would store it, and every child is indexed under its parent |
| Indexer.FlattenWF | src/useTreeLink.tsx:101-137 | the index of any forest with unique keys is well formed |
| Indexer.LevelsAndParents | src/useTreeLink.tsx:127-133 | an entry has no parent exactly when it sits at level 0, a root has no parent node, and every child of an entry is indexed one level down with that entry's key as its parent id |
| Indexer.ParentDisabledInherited | src/useTreeLink.tsx:116-133 | `parentDisabled` is the node's own flag for a root and its own flag or its parent's `parentDisabled` otherwise; each tagged child carries its own flag or its parent's |
| Indexer.LinkKeys | src/useTreeLink.tsx:110-125 | the enabled keys among an entry's tagged children are the enabled keys among its node's children |
| Levels.BuildLevelTree | src/useTreeLink.tsx:174-200 | every bucket holds exactly the entries of its level, a bucket exists only for a level some entry has, and `maxLevel` bounds every level and is reached (or is 0) |
| Conduct.RemoveFromCheckedKeys | src/useTreeLink.tsx:416-427 | the result is the half-checked keys that are not checked |
| Conduct.AddEnabledChildren | src/useTreeLink.tsx:258-262 | the result adds the keys of the enabled children to the checked set |
| Conduct.DeleteEnabledChildren | src/useTreeLink.tsx:348-352 | the result removes the keys of the enabled children from the checked set |
| Conduct.ScanChildren | src/useTreeLink.tsx:291-311 | `allChecked` holds iff every enabled child is checked; `partialChecked` holds iff some enabled child is checked or half-checked |
| Conduct.CascadeLevel | src/useTreeLink.tsx:253-264 | one level of the cascade adds the enabled children of the checked enabled entries of that level, whatever order the bucket is walked in |
| Conduct.ClearLevel | src/useTreeLink.tsx:338-354 | one level of clearing deletes the enabled children of the enabled entries of that level that are neither checked nor half-checked |
| Conduct.AggregateLevel | src/useTreeLink.tsx:272-321 | one bottom-up level visits each unvisited parent of an enabled entry once: a disabled parent is only marked visited; an enabled one is checked (or unchecked) and half-checked from its children's state |
| Conduct.CascadeDown | src/useTreeLink.tsx:252-265 | the top-down loop over levels 0 to `maxLevel` yields the cascade over all levels |
| Conduct.ClearDown | src/useTreeLink.tsx:337-355 | the top-down clearing loop yields the clearing over all levels |
| Conduct.AggregateUp | src/useTreeLink.tsx:270-322 | the bottom-up loop from `maxLevel` to 0, from an empty half set and no visited key, yields the aggregation over all levels |
| Conduct.ConductCheckTrue | src/useTreeLink.tsx:237-330 | the method returns the checking conduction of its keys: cascade, aggregation, then the checked keys dropped from the half set |
| Conduct.ConductCheckFalse | src/useTreeLink.tsx:332-413 | the method returns the unchecking conduction of its keys against the prior half set |
| ConductResults.CheckTrueAt | src/useTreeLink.tsx:252-329 | a key is checked iff the cascade reached it or it is an enabled, truthy parent whose enabled children are all checked; it is half-checked iff it is such a parent, unchecked, with an enabled child checked or half-checked |
| ConductResults.CheckTrueBounds | src/useTreeLink.tsx:242-329 | checking keeps every input key (known or not), adds only keys of the tree, half-checks only keys of the tree, and keeps the two sets apart |
| ConductResults.CheckTrueOutside | src/useTreeLink.tsx:242-247 | a key outside the tree is checked iff it was passed in, and never half-checked |
| ConductResults.CheckTrueDisabled | src/useTreeLink.tsx:257-289 | a disabled node is checked iff it was passed in, and never half-checked |
| ConductResults.CheckTrueClosed | src/useTreeLink.tsx:252-265 | downward closure: a checked enabled node has all its enabled children checked |
| ConductResults.CheckTrueUp | src/useTreeLink.tsx:295-315 | upward closure: an enabled parent with a truthy key whose enabled children are all checked is checked |
| ConductResults.CheckTrueStable | src/useTreeLink.tsx:237-330 | conducting the checked keys of a result gives the same result back |
| ConductResults.RootSeedExact | src/useTreeLink.tsx:252-322 | when only roots are passed in, the result is exactly their cascade and nothing is half-checked |
| ConductResults.CheckFalseAt | src/useTreeLink.tsx:332-412 | a key stays checked iff it survives the clearing and is not an enabled, truthy parent with an enabled child unchecked; the half set is rebuilt from the surviving state |
| ConductResults.CheckFalseBounds | src/useTreeLink.tsx:332-412 | unchecking returns a subset of the input keys, half-checks only keys of the tree, and keeps the two sets apart |
| ConductResults.CheckFalseDisabled | src/useTreeLink.tsx:343-378 | a disabled node stays checked iff it was passed in, and is never half-checked |
| ConductResults.CheckFalseOutside | src/useTreeLink.tsx:333-351 | a key outside the tree stays checked iff it was passed in |
| ConductResults.CheckFalseClears | src/useTreeLink.tsx:343-353 | an enabled node neither checked nor half-checked on input has no enabled child checked afterwards |
| ConductResults.CheckFalseUp | src/useTreeLink.tsx:380-398 | an enabled parent with a truthy key and an enabled child unchecked is unchecked |
| Controller.CanCheckedTreeKeys | src/useTreeLink.tsx:429-434 | the checkable keys are keys of the index, and include every enabled node no disabled flag reaches, in either mode |
| Controller.IsCheckAll | src/useTreeLink.tsx:436-438 | a selection that covers the checkable keys reads as all checked |
| Controller.CheckAllIsIndeterminate | src/useTreeLink.tsx:440-443 | neither an empty selection nor one covering the checkable keys is indeterminate |
| Controller.SelectAllBlocking | src/useTreeLink.tsx:449-499 | blocking select-all, as the source computes it, yields nothing exactly when there is no root bucket |
| Controller.SelectAllBlockingCorrected | src/useTreeLink.tsx:485-499 | the corrected blocking select-all yields nothing exactly when there is no root bucket, and otherwise keeps its checked and half sets apart |
| Controller.SelectAllFree | src/useTreeLink.tsx:500-531 | non-blocking select-all selects every enabled key not yet checked, and every enabled key when the selection is indeterminate; it selects nothing but enabled keys and checked disabled keys, and commits the parent ids of its selection as the half set |
| Controller.TreeLink.constructor | src/useTreeLink.tsx:77-88 | the first state: empty index with no root bucket, nothing checked, empty committed value, nothing reported |
| Controller.TreeLink.TreeChanged | src/useTreeLink.tsx:90-146 | an empty tree changes nothing; otherwise the index becomes the tree's index over exactly its keys and the level index is rebuilt; the checked state is untouched |
| Controller.TreeLink.ValueChanged | src/useTreeLink.tsx:148-171 | no value or no index: nothing changes; an empty value clears the visible sets only; checked keys all already committed: nothing changes; otherwise the conducted value is shown, committed and reported |
| Controller.TreeLink.GetLatestCheckedKeys | src/useTreeLink.tsx:217-230 | checking conducts the visible keys plus the clicked key; unchecking conducts them without it against the visible half set |
| Controller.TreeLink.OnInnerCheckedChange | src/useTreeLink.tsx:202-210 | a click's conducted value is shown, committed and reported once |
| Controller.TreeLink.CollectDisabledChecked | src/useTreeLink.tsx:461-468 | the loop collects exactly the checked disabled nodes of the index |
| Controller.TreeLink.RootsResults | src/useTreeLink.tsx:470-480 | the loop over the root bucket collects the union of the conducted results of the enabled roots |
| Controller.TreeLink.PartitionKeys | src/useTreeLink.tsx:504-512 | the loop collects the keys of the enabled nodes and, apart, the checked disabled nodes |
| Controller.TreeLink.ParentIdsOf | src/useTreeLink.tsx:516-522 | the loop collects the parent ids of the selected keys |
| Controller.TreeLink.OnCheckAllChange | src/useTreeLink.tsx:446-533 | with blocking and no root bucket nothing changes, otherwise the selection is shown, committed and reported; without blocking the selection is committed with its parent ids as half set, the visible half set is emptied, and it is reported |
| Controller.TreeLink.CheckAllBlocking | src/useTreeLink.tsx:449-499 | the blocking branch returns early without a root bucket and otherwise shows, commits and reports the source's selection, half set included |
| Controller.TreeLink.BlockingSelection | src/useTreeLink.tsx:457-496 | the assembled selection is the source's blocking select-all value: its half set is the roots' half sets, less the visible one unless the selection is indeterminate |
| Controller.TreeLink.CheckAllFree | src/useTreeLink.tsx:500-532 | the non-blocking branch commits and reports its selection and empties the visible half set |
| Controller.TreeLink.FreeSelection | src/useTreeLink.tsx:502-526 | the assembled selection is the non-blocking select-all value |
| Controller.TreeLink.Commit | src/useTreeLink.tsx:204-209 | the visible sets and the committed value are set, the committed value is reported, and nothing else changes |
| ControllerProps.SelectAlwaysChecks | src/useTreeLink.tsx:436-448 | `isCheckAll` and indeterminate never hold together, so select-all always conducts in the checking direction |
| ControllerProps.CheckAllExact | src/useTreeLink.tsx:436-438 | for a selection of checkable keys, `isCheckAll` holds iff all of them are selected |
| ControllerProps.CheckableKeys | src/useTreeLink.tsx:429-434 | with blocking every checkable key is also checkable without it; without blocking the checkable keys are those of the enabled nodes |
| ControllerProps.CheckClick | src/useTreeLink.tsx:221-222 | checking an enabled node keeps every checked key, checks it and its enabled children, and keeps the two sets apart |
| ControllerProps.UncheckClick | src/useTreeLink.tsx:223-227 | unchecking an enabled node that is not half-checked unchecks it and its enabled children and checks nothing new |
| ControllerProps.ClickKeepsDisabled | src/useTreeLink.tsx:217-230 | a click leaves every other disabled node as it was and never half-checks it |
| ControllerProps.RootOf | src/useTreeLink.tsx:470-480 | every node no disabled flag reaches is checked by conducting the visible checked keys plus some enabled root |
| ControllerProps.RootsCheckable | src/useTreeLink.tsx:470-480 | from an empty selection, the enabled roots conducted one by one check exactly the nodes no disabled flag reaches, and half-check none |
| ControllerProps.SelectAllFromNothing | src/useTreeLink.tsx:449-499 | with blocking and nothing selected, select-all checks exactly the checkable keys, half-checks none, and its checked set reads as all checked |
| ControllerProps.SelectAllPartial | src/useTreeLink.tsx:449-499 | with blocking, an enabled root and an indeterminate selection, select-all keeps every checked key and checks every node no disabled flag reaches |
| ControllerProps.SelectAllEverything | src/useTreeLink.tsx:429-499 | with blocking, no disabled node and nothing selected, select-all checks every key of the tree |
| ControllerProps.BlockingDeselect | src/useTreeLink.tsx:461-488 | with blocking, on a conducted state with every checkable key checked, select-all keeps only the checked disabled nodes and half-checks nothing |
| ControllerProps.RootCascadeUnblocked | src/useTreeLink.tsx:252-265 | the cascade from the enabled roots reaches only nodes no disabled flag reaches |
| ControllerProps.UnblockedInRootCascade | src/useTreeLink.tsx:252-265 | every node no disabled flag reaches is reached by the cascade from the enabled roots |
| ControllerProps.RootsConducted | src/useTreeLink.tsx:237-330 | conducting the enabled roots checks exactly the checkable keys of blocking mode and half-checks none |
| ControllerProps.BlockingToggle | src/useTreeLink.tsx:449-499 | with blocking, a second select-all after one from nothing unchecks and un-half-checks everything |
| ControllerProps.BlockingKeepsDisabled | src/useTreeLink.tsx:461-488 | with blocking, select-all leaves every disabled node as it was and never half-checks it |
| ControllerProps.SelectAllBlockingBounds | src/useTreeLink.tsx:470-499 | with blocking, select-all checks only keys of the tree or keys already checked, and half-checks only keys of the tree |
| ControllerProps.BlockingCorrection | src/useTreeLink.tsx:485-499 | the corrected blocking value differs from the source's only by dropping checked keys from the half set, and equals it iff the source's two sets are apart |
| ControllerProps.FreeFromNothing | src/useTreeLink.tsx:500-531 | without blocking and nothing selected, select-all checks every enabled node and commits their parent ids as the half set |
| ControllerProps.FreeDeselect | src/useTreeLink.tsx:504-514 | without blocking, once every enabled node is selected, select-all keeps only the checked disabled nodes |
| ControllerProps.FreeToggle | src/useTreeLink.tsx:500-531 | without blocking, a second select-all after one from nothing unchecks everything |
| ControllerProps.FreeKeepsDisabled | src/useTreeLink.tsx:504-514 | without blocking, a disabled node is selected afterwards iff it was before |
| RoundTrip.LeafCascade | src/useTreeLink.tsx:252-265 | the cascade adds nothing to a conducted checked set joined with an enabled node without enabled children |
| RoundTrip.UncheckedHasNoneChecked | src/useTreeLink.tsx:291-315 | with truthy keys, an enabled node a checking conduction leaves neither checked nor half-checked has no enabled child checked |
| RoundTrip.LeafClear | src/useTreeLink.tsx:337-355 | after checking such a node, unchecking it clears nothing in the top-down pass |
| RoundTrip.UndoChecked | src/useTreeLink.tsx:217-230 | checking and then unchecking such a node leaves exactly the keys checked before |
| RoundTrip.UndoHalf | src/useTreeLink.tsx:217-230 | checking and then unchecking such a node leaves exactly the keys half-checked before |
| RoundTrip.UncheckUndoesCheck | src/useTreeLink.tsx:202-230 | with truthy keys, in a conducted state, clicking an unchecked enabled node without enabled children twice gives the state back |
| RoundTrip.EmptyRootUnchecked | src/useTreeLink.tsx:107-110 | a root keyed "" is never checked or half-checked by the checking conductor unless given |
| RoundTrip.EmptyKeyBreaksUndo | src/useTreeLink.tsx:107-110 | under a root keyed "" with children y and l, from the conducted state of {y}, checking and then unchecking l loses y |
| SelectAllExample.OverlapAsWritten | src/useTreeLink.tsx:470-494 | on the forest A(a1, a2), B with a1 checked and A half-checked, the source's blocking select-all both checks and half-checks A |
| SelectAllExample.OverlapCorrected | src/useTreeLink.tsx:470-494 | on the same input the corrected value checks A and does not half-check it |

## Findings

| source | as written | input that shows it | evidently intended | confidence | as-written member | corrected member |
|---|---|---|---|---|---|---|
| src/useTreeLink.tsx:485-494 | blocking select-all commits and shows as half set the union of the roots' half sets, never cut by the selected checked keys | forest A(a1, a2), B, nothing disabled, checked {a1}, half {A}: root A's run checks A, root B's run (from a1 and B) half-checks A, so A is both checked and half-checked | the half set leaves out the selected checked keys, as both conductors ensure at :324-329 and :407-412 | not executed | Controller.SelectAllBlocking, SelectAllExample.OverlapAsWritten | Controller.SelectAllBlockingCorrected, SelectAllExample.OverlapCorrected, ControllerProps.BlockingCorrection |

The class `Controller.TreeLink` commits the source's value of blocking
select-all, and the select-all lemmas of `ControllerProps` are stated for
it. `ControllerProps.BlockingCorrection` shows the corrected value has the
same checked set and a half set that is a subset of the source's. So every
checked-set claim carries over to the corrected value, and so does every
claim that a key is not half-checked. Where the source's half set is empty
the two values are equal; this covers `SelectAllFromNothing`,
`SelectAllEverything`, `BlockingDeselect` and `BlockingToggle`.

## Left out

- React plumbing is left out: `useState`, `useEffect`, `useRef`, `useMemo`
  and re-render timing. The effects and memos become explicit methods and
  fields. The value effect re-runs when the index changes; here a caller
  calls `ValueChanged` after `TreeChanged`.
- `onChange` is left out. Each committed value is appended to `notified`
  whether or not a callback is set, since the model has no callback.
- Numeric keys are left out; the model has string keys only. The source
  keeps a key's own type in the checked and half sets and in `parentId`
  (src/useTreeLink.tsx:127, :133). So the numeric key `0` is falsy at :109,
  exactly like `""`, and `1` and `"1"` are different members of a set.
  `label` and the `fieldNames` indirection are fixed field names.
- Order is left out. The order of the output arrays and of the walk over
  a level bucket is not modelled, because every use of the arrays is a
  membership test. The per-level loops pick any next entry and are proved
  against order-free definitions.
- lodash `difference` is modelled as set difference.
- `init`'s `maxLevel` is left out, because nothing reads it.
- Controller.TreeLink.TreeChanged: requires a forest without repeated keys;
  with repeats the source overwrites entries in visit order, and that case
  is not modelled.
- Controller.SelectAllFree: a root's parent id is `null`, and the source
  adds it to the committed half set; a set of keys cannot hold it, so it is
  dropped.
- Controller.TreeLink.constructor: `isBlockConductionWhenDisabled` is a
  required argument, fixed for the object's lifetime. In the source it
  defaults to `true` and may change from one render to the next.
- RoundTrip.UncheckUndoesCheck: requires that no key is `""`. The indexer
  gives a parent keyed `""` no parent node for its children. So that parent
  is never aggregated, and unchecking clears all of its enabled children.
  `RoundTrip.EmptyKeyBreaksUndo` shows a checked sibling being lost.
- The key filter at the start of `conductCheckTrue` is left out: it
  compares a type name with `undefined`, so it keeps every key.
