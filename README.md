# Bookmarks: a Dafny model of the ordered list of bookmarks with parent links

The Deskpro Bookmarks app keeps every bookmark and folder in one admin setting. The setting holds a flat JSON array of `IBookmark` records. Each record has an `Id`, a `Name`, a `URL`, a `Description`, a `ParentFolder` (a folder id or `null`) and an `isFolder` flag. The app draws the array as a two-level tree. It turns drag-and-drop gestures and form submissions back into edits of the flat array.

This project models that core and proves what the code guarantees and what it does not:

- **`js.dfy` (`Js`).** The JavaScript semantics the code depends on: `null` vs `undefined`, truthiness, `??`, `findIndex`, `find`, `findLastIndex`, `filter`, `splice` (with start and count clamping) and `String.prototype.replace` with a string pattern (first occurrence only).
- **`bookmark.dfy` (`Bookmarks`).** The record, the lookup by id, and the child count of a folder.
- **`settings_utilities.dfy` (`SettingsUtilities`).** The `useSettingsUtilities` hook.
  - `getBookmarks` and `getParentFolders` are functions.
  - `moveBookmark`, `addBookmark`, `editBookmark` and `removeBookmark` are methods of the class `Utilities`. The class holds the context snapshot the hook read (`stored`) and a log of every list written back (`writes`).
  - Each method is proved equal to a specification function of the snapshot (`MoveWrites`, `AddWrites`, `EditWrites`, `RemoveWrites`). Lemmas state what those writes mean: permutation, undo, exact removal, cascade, and position of an insert.
- **`treeify.dfy` (`Treeify`).** `useTreeify`: the false root, the id and parent-id wrappers handed to d3's `stratify`, the false-root tests, and the view "detached from root" built from `copy()` of the root's children. `stratify` is a parameter.
- **`hierarchical_drag_list.dfy` (`HierarchicalDragList`).**
  - `isDropDisabled`.
  - The drag state kept between `onDragStart` and `onDragEnd` (class `DragState`).
  - The drop-to-`ListChangeEvent` mapping.
  - The `dpNameProp` memo (class `DpNameCache`).
  - The divider drawn under an item.
  - The tree options the list passes to `useTreeifyDetachedFromRoot`.

  The Global and Admin copies of the component share `dpNameProp`, `isDropDisabled`, `onDragStart`, `onDragEnd` and the tree options:
  - Admin 26-39 is Global 33-46.
  - Admin 144-155 is Global 184-195.
  - Admin 313-316 is Global 349-352.
  - Admin 318-375 is Global 354-411.

  They are modelled once and cited at the Global lines. The divider rule exists only in the Global copy.
- **`mutate_bookmark.dfy` (`MutateBookmark`).** The Add/Edit form:
  - the URL regular expression, decided by a function and proved equal to the pattern's own reading;
  - the required fields;
  - `submit`;
  - the parent-folder dropdown options and the label shown;
  - the values the form starts from.

### Behaviour of the code that the model keeps

- **Item moves swap.** `moveBookmark` on an item exchanges the record with the sibling at the requested index (lines 59-64). It does not shift the records in between, so moving the third of three items to index 0 gives `[item3, item2, item1]`, not `[item3, item1, item2]`. The model follows the code.
- **Folder moves use the old index.** A folder move lifts out the folder and `children.length` records. It then reinserts them at the target's index taken *before* the removal. `splice` clamps that index to the shorter list (`SpliceTwiceIsMoveBlock`, `MoveBlockUndo`). When a run of `n` records moves down past a later folder, the target has shifted `n` places up by the time the run goes back in. So the run lands `n` places after the target, which is inside the target's run whenever the target has at least `n` children.
- **A folder moved down lands inside the target's run.** Take Root, then folder A with one child, then folder B with two children, all contiguous. Moving A to B's sibling index gives Root, B, B's first child, A, A's child, B's second child. B's children are no longer contiguous. A later `removeBookmark` of B then cuts B plus two records by position. It deletes B, its first child and folder A, and leaves A's child and B's second child behind with missing parents (`FolderMoveLandsInsideTarget`). The model keeps the code's move. Beside it, `DesignedFolderMove` gives the move that keeps every folder followed by its children: when moving down past the target, it adds the target's run length and subtracts the mover's. `DesignedMoveDown` and `DesignedMoveUp` prove that both runs stay whole and contiguous.
- **Writes read the same snapshot.** Every operation reads the settings snapshot the hook was created with, and writes do not update it. So when `editBookmark` changes a record's parent, it makes two writes. The first is `addBookmark`'s: the pre-edit list plus the record. The second removes the record from the pre-edit list. The second write is the one that persists, and it no longer holds the record (`EditToNewParentDropsRecord`).
- **Editing a missing id removes the last record.** `editBookmark` on an id that is not stored, with the submitted `ParentFolder` `null` or a folder id, takes the "parent changed" branch. Its `splice(-1, 1)` then removes the last record of the list (`EditMissingIdDropsLast`).
- **A null or empty parent blocks dropping among siblings.** `onDragStart` stores `parentIdAccessor(option) || undefined`. `isDropDisabled` compares with `!==`. So a dragged record whose parent is `null` or `""` can only be dropped in zones whose first node's parent reads `undefined` (`DropOpenOnlyAmongSiblings`, `NullParentZoneClosed`).
- **The `parentOnly` test never refuses.** It runs after source and destination have been checked to be the same droppable, so it cannot refuse anything (`ParentOnlyHasNoEffect`).
- **`dpNameProp` keys can collide.** The memo keys on the name followed by the ident string. So `dpNameProp("x=y")` and `dpNameProp("x", ["", "y"])` share an entry, and the second call gets props named "x=y" (`CacheKeyCollides`).
- **`dpNameProp` hits inherited names.** The memo is a plain object literal, so a lookup also sees the members of `Object.prototype`. A name such as `"constructor"` or `"toString"` is never cached and returns that inherited member instead of props (`DpNameCache.Get`, `ConstructorNameIsInherited`).
- **Detached trees carry no ids.** `useTreeifyDetachedFromRoot` returns `copy()` of each child of the root. d3's `copy()` rebuilds the subtree from the data alone, so the ids `stratify` set are gone and depths restart at 0. On those copies the id half of `isFalseHierarchyNodeRoot` can never hold (`CopyKeepsOnlyDataTest`).
- **Defaults take the first match.** `find` returns the first record that matches. So the folder form and the Add form start from the first folder named "Root", and the Edit form from the first record with the id (`RootFolderId`, `EditDefaults`).
- **The Edit form's reset has three outcomes.** An empty `objectId` makes the effect return before any reset. The form then keeps the folder form's `ParentFolder` value and the manual URL error. An id that is not stored gives `reset(undefined)`, which puts the form back to its default values. A stored id resets the form to the first record with that id. Either reset also clears the form's errors, the manual URL error included (`EditDefaults`, `EditReset`).

## Model

| member | source | states |
|---|---|---|
| Js.FindIndex | src/hooks/useSettingsUtilities.ts:29-31 | -1 exactly when no element matches; otherwise the first matching index |
| Js.Find | src/components/HierarchicalDragList/HierarchicalDragListGlobal.tsx:356-358 | `None` exactly when no element matches; otherwise the element at the first matching index |
| Js.FindLastIndex | src/components/HierarchicalDragList/HierarchicalDragListGlobal.tsx:163-166 | -1 exactly when no element matches; otherwise the last matching index |
| Js.Filter | src/hooks/useSettingsUtilities.ts:35-37 | the filtered list is never longer than the input; what it keeps, how often and in what order is stated by the three lemmas below |
| Js.FilterMembers | src/hooks/useSettingsUtilities.ts:35-37 | an element is in the filtered list exactly when it is in the list and passes the predicate |
| Js.FilterMultiplicity | src/hooks/useSettingsUtilities.ts:23 | filter keeps every passing element as often as it occurs and drops the rest |
| Js.FilterIsSubsequence | src/hooks/useSettingsUtilities.ts:23 | filter keeps the list order |
| Js.SpliceStart | src/hooks/useSettingsUtilities.ts:113 | splice's start: a negative start counts from the end, and the start is clamped to [0, length] |
| Js.SpliceCount | src/hooks/useSettingsUtilities.ts:133 | splice removes the requested count when it fits, and never runs past the end |
| Js.Splice | src/hooks/useSettingsUtilities.ts:70-75 | splice returns the removed run; the array keeps everything before and after it, with the items put in its place |
| Js.SplicePermutes | src/hooks/useSettingsUtilities.ts:96 | splice loses nothing: what is left plus what was removed equals the input plus the inserted items, as multisets |
| Js.IndexOf | src/components/HierarchicalDragList/HierarchicalDragListGlobal.tsx:386-390 | the first position where the pattern occurs, or -1 when it occurs nowhere |
| Js.ReplaceFirst | src/components/HierarchicalDragList/HierarchicalDragListGlobal.tsx:386-390 | replace with a string pattern changes only the first occurrence; with no occurrence the string is returned unchanged |
| Bookmarks.IndexOfId | src/hooks/useSettingsUtilities.ts:104-106 | the first record with the id, or -1 exactly when no record has it |
| Bookmarks.IndexOfUniqueId | src/hooks/useSettingsUtilities.ts:41-43 | with unique ids, looking up a record's id finds that record |
| Bookmarks.ChildCount | src/hooks/useSettingsUtilities.ts:66-68 | the count of records whose parent is the folder never exceeds the list length |
| SettingsUtilities.GetBookmarks | src/hooks/useSettingsUtilities.ts:13-18 | the stored list when there is one; otherwise the single default `Root` folder with the fixed id, a null parent and empty URL and description |
| SettingsUtilities.GetParentFolders | src/hooks/useSettingsUtilities.ts:20-24 | a record is returned exactly when it is stored and is a folder |
| SettingsUtilities.ParentFoldersExact | src/hooks/useSettingsUtilities.ts:20-24 | the folders come out in stored order and with their stored multiplicity, and non-folders never come out |
| SettingsUtilities.Siblings | src/hooks/useSettingsUtilities.ts:35-37 | the siblings are exactly the stored records with the same `ParentFolder` |
| SettingsUtilities.MoveRequest | src/hooks/useSettingsUtilities.ts:29-43 | a request the code can run without crashing names a stored id and a sibling index inside the list |
| SettingsUtilities.MoveTarget | src/hooks/useSettingsUtilities.ts:39-43 | the absolute index of the record whose id is the `newIndex`-th sibling's |
| SettingsUtilities.LastNonFolderRoot | src/hooks/useSettingsUtilities.ts:45-47 | the index before the first folder after position 0, or -1 exactly when no folder follows position 0 |
| SettingsUtilities.MoveRefusedMeaning | src/hooks/useSettingsUtilities.ts:45-57 | a folder is refused exactly when its target lies in the run of loose records after position 0 and before the first later folder; a loose root item is refused exactly when its target does not; any other item is never refused |
| SettingsUtilities.Swap | src/hooks/useSettingsUtilities.ts:59-64 | the two positions exchange their records, every other position is kept, and the list is a permutation of the input |
| SettingsUtilities.SwapInEitherOrder | src/hooks/useSettingsUtilities.ts:60-64 | the two assignments, in the code's order, give the exchange |
| SettingsUtilities.SwapTwice | src/hooks/useSettingsUtilities.ts:59-64 | exchanging the same two positions again restores the list |
| SettingsUtilities.BlockLength | src/hooks/useSettingsUtilities.ts:70-73 | the lifted run holds the folder and is never longer than the list past it |
| SettingsUtilities.MoveBlock | src/hooks/useSettingsUtilities.ts:65-76 | the block move keeps the list length; where the run lands is stated by `MoveBlockParts` |
| SettingsUtilities.FolderCut | src/hooks/useSettingsUtilities.ts:66-73 | the first splice of a folder move returns the folder's run and leaves the rest in order |
| SettingsUtilities.MoveBlockParts | src/hooks/useSettingsUtilities.ts:65-76 | after a folder move the run sits at the clamped target, and the records around it are the rest of the list in order |
| SettingsUtilities.SpliceTwiceIsMoveBlock | src/hooks/useSettingsUtilities.ts:65-76 | the code's two splices are the block move to the pre-removal target index |
| SettingsUtilities.MoveBlockPermutes | src/hooks/useSettingsUtilities.ts:65-76 | a folder move keeps every record with its multiplicity |
| SettingsUtilities.MoveBlockUndo | src/hooks/useSettingsUtilities.ts:65-76 | moving the run back from where it landed to where it came from restores the list |
| SettingsUtilities.MoveBlockInPlace | src/hooks/useSettingsUtilities.ts:70-75 | reinserting the run at its own index leaves the list unchanged |
| SettingsUtilities.FolderMoveLandsInsideTarget | src/hooks/useSettingsUtilities.ts:65-76 | on contiguous folders A (one child) and B (two children), moving A to B's index is allowed and writes Root, B, b1, A, a1, b2; B is then no longer followed by its children, and removing B deletes B, b1 and A and keeps a1 and b2 |
| SettingsUtilities.TwoFoldersMoveWrites | src/hooks/useSettingsUtilities.ts:26-79 | on that list the code's move writes exactly the one list with A's run inside B's |
| SettingsUtilities.TwoFoldersMovedBroken | src/hooks/useSettingsUtilities.ts:121-137 | in the moved list B's children are not contiguous, and removing B cuts by position |
| SettingsUtilities.DesignedFolderMove | src/hooks/useSettingsUtilities.ts:65-76 | the folder move with the target's run length taken into account keeps the length and every record with its multiplicity |
| SettingsUtilities.DesignedMoveDown | src/hooks/useSettingsUtilities.ts:65-76 | moving a folder down past a later folder puts the target's whole run first and the mover's whole run right after, each folder still followed by all its children |
| SettingsUtilities.DesignedMoveUp | src/hooks/useSettingsUtilities.ts:65-76 | moving a folder up to an earlier folder puts the mover's whole run first and the target's whole run right after, each folder still followed by all its children |
| SettingsUtilities.MoveDownPastRun | src/hooks/useSettingsUtilities.ts:70-75 | a block moved to just past a later run sits there intact, with the later run shifted down by the block's length |
| SettingsUtilities.MoveUpBeforeRun | src/hooks/useSettingsUtilities.ts:70-75 | a block moved to an earlier run's index sits there intact, with the earlier run right after it |
| SettingsUtilities.RunStillFollows | src/hooks/useSettingsUtilities.ts:66-68 | a folder's run copied whole into a permutation of the list is again followed by all its children |
| Js.FilterLengthOfPermutation | src/hooks/useSettingsUtilities.ts:66-68 | two lists with the same elements pass the same number through `filter` |
| SettingsUtilities.MoveWrites | src/hooks/useSettingsUtilities.ts:26-79 | at most one write, and none exactly when the guard refuses (a folder at or before the last loose root item, or a loose root item after it) |
| SettingsUtilities.MoveWritesPermute | src/hooks/useSettingsUtilities.ts:26-79 | whatever the move writes is a permutation of the list it read |
| SettingsUtilities.RootItemsStuckWithoutFolders | src/hooks/useSettingsUtilities.ts:45-57 | with no folder after position 0, a loose root item is never moved |
| SettingsUtilities.MoveToOwnIndexKeepsList | src/hooks/useSettingsUtilities.ts:26-79 | moving a record to the sibling index it already has writes the list unchanged, or nothing |
| SettingsUtilities.SiblingItem | src/hooks/useSettingsUtilities.ts:85-89 | an item's filter keeps exactly the non-folders with the same `ParentFolder` |
| SettingsUtilities.AddAnchor | src/hooks/useSettingsUtilities.ts:84-93 | a folder is placed after the last record of the list when that record's id is not empty |
| SettingsUtilities.AddAnchorIsStoredCandidate | src/hooks/useSettingsUtilities.ts:84-93 | an anchor other than the parent is the id of a stored record that passed the filter: any record for a folder, a loose sibling for an item |
| SettingsUtilities.Utilities.constructor | src/hooks/useSettingsUtilities.ts:7-11 | the hook starts from the context snapshot with nothing written |
| SettingsUtilities.Utilities.MoveBookmark | src/hooks/useSettingsUtilities.ts:26-79 | appends exactly `MoveWrites` of the snapshot to the write log |
| SettingsUtilities.AddIndex | src/hooks/useSettingsUtilities.ts:84-96 | the insert position is one past the record holding the anchor id, or 0 exactly when there is no anchor or no record holds it |
| SettingsUtilities.Insert | src/hooks/useSettingsUtilities.ts:96 | the new record sits at the position, and the records before and after it keep their order |
| SettingsUtilities.InsertThenCut | src/hooks/useSettingsUtilities.ts:96 | taking the inserted record back out gives the list before the insert |
| SettingsUtilities.InsertBySplice | src/hooks/useSettingsUtilities.ts:96 | the zero-delete splice is exactly that insert |
| SettingsUtilities.AddWrites | src/hooks/useSettingsUtilities.ts:81-99 | adding makes exactly one write |
| SettingsUtilities.AddItemAfterLastSibling | src/hooks/useSettingsUtilities.ts:84-96 | an item lands right after the last loose item with its parent, and no loose item with that parent comes after it |
| SettingsUtilities.AddItemWithoutSiblings | src/hooks/useSettingsUtilities.ts:84-96 | an item without loose siblings lands right after its parent record, or at index 0 when no record has the parent id |
| SettingsUtilities.AddFolderAtEnd | src/hooks/useSettingsUtilities.ts:84-96 | a folder is appended after the last record |
| SettingsUtilities.Utilities.AddBookmark | src/hooks/useSettingsUtilities.ts:81-99 | appends exactly `AddWrites` of the snapshot to the write log |
| SettingsUtilities.EditWrites | src/hooks/useSettingsUtilities.ts:101-119 | same parent: one write, with the record replaced at its index and every other record kept. Otherwise two writes, and the first is the add of the new record to the pre-edit list |
| SettingsUtilities.EditInPlaceWrites | src/hooks/useSettingsUtilities.ts:110-111 | the same-parent branch writes the list with the record replaced in place |
| SettingsUtilities.EditReparentWrites | src/hooks/useSettingsUtilities.ts:112-118 | the other branch writes the add, then the pre-edit list spliced at the found index |
| SettingsUtilities.EditSecondWrite | src/hooks/useSettingsUtilities.ts:112-118 | when the parent changes there are two writes, and the second is the pre-edit list with the record cut out |
| SettingsUtilities.EditToNewParentDropsRecord | src/hooks/useSettingsUtilities.ts:101-119 | when the parent changes, the write that persists is the list without the record, and no record with its id is left |
| SettingsUtilities.EditMissingIdDropsLast | src/hooks/useSettingsUtilities.ts:104-116 | editing an id that is not stored, with the submitted parent `null` or a folder id, writes the list without its last record |
| SettingsUtilities.RemoveCount | src/hooks/useSettingsUtilities.ts:128-136 | one record for an item; the folder's child count plus one for a folder |
| SettingsUtilities.Utilities.EditBookmark | src/hooks/useSettingsUtilities.ts:101-119 | appends exactly `EditWrites` of the snapshot to the write log |
| SettingsUtilities.RemoveWrites | src/hooks/useSettingsUtilities.ts:121-138 | one write: the list with the clamped run at the record's index cut out |
| SettingsUtilities.RemoveItemExact | src/hooks/useSettingsUtilities.ts:134-136 | removing an item takes out exactly that record, and no record with its id is left |
| SettingsUtilities.ChildrenOnlyAfterFolder | src/hooks/useSettingsUtilities.ts:128-133 | when a folder's children follow it, none of its children sits anywhere else |
| SettingsUtilities.RemoveFolderCascades | src/hooks/useSettingsUtilities.ts:128-133 | when a folder's children follow it, removing it writes exactly the records that are neither the folder nor its children, in order |
| SettingsUtilities.Utilities.RemoveBookmark | src/hooks/useSettingsUtilities.ts:121-138 | appends exactly `RemoveWrites` of the snapshot to the write log |
| Treeify.WithFalseRoot | src/components/HierarchicalDragList/useTreeify.ts:28 | `withFalseRoot` is true when left out, and as given otherwise |
| Treeify.OrNull | src/components/HierarchicalDragList/useTreeify.ts:39 | a string is kept; `null` and `undefined` become `null` |
| Treeify.ParentIdOf | src/components/HierarchicalDragList/useTreeify.ts:30-40 | the parent-id wrapper never gives `undefined` |
| Treeify.IdOf | src/components/HierarchicalDragList/useTreeify.ts:42-50 | the caller's elements keep the id their accessor gives |
| Treeify.StratifyInput | src/components/HierarchicalDragList/useTreeify.ts:52-55 | `stratify` gets the false root first and then the caller's list, element by element |
| Treeify.GenerateTree | src/components/HierarchicalDragList/useTreeify.ts:26-56 | no contract of its own: the tree is what the `stratify` parameter returns for `StratifyInput` and the `IdOf` / `ParentIdOf` wrappers |
| Treeify.StratifyInputHasOneFalseRoot | src/components/HierarchicalDragList/useTreeify.ts:6-11 | the false-root object is at the head of the input and nowhere else |
| Treeify.StratifyInputRoundTrip | src/components/HierarchicalDragList/useTreeify.ts:52-55 | dropping the head of the input gives back the caller's list |
| Treeify.FalseRootIsTheOnlyRoot | src/components/HierarchicalDragList/useTreeify.ts:30-37 | with the false root, only the false root is parentless. An element keeps its string parent id (even `""`); a `null` or `undefined` parent becomes the false root's id |
| Treeify.WithoutFalseRootParentsAsGiven | src/components/HierarchicalDragList/useTreeify.ts:39 | without the false root, an element is parentless exactly when its accessor gives `null` or `undefined`, and otherwise keeps its parent id |
| Treeify.FalseRootCarriesItsId | src/components/HierarchicalDragList/useTreeify.ts:31-46 | with the false root, it has `falseRootId` as id and `null` as parent |
| Treeify.Redepth | src/components/HierarchicalDragList/useTreeify.ts:77 | the rebuilt node keeps its data, height and child count, gets the new depth, and has no id, as d3's `hierarchy()` builds it |
| Treeify.Copy | src/components/HierarchicalDragList/useTreeify.ts:77 | a copy has depth 0, the original's data and child count, and no id: d3's `copy()` does not carry the ids `stratify` set |
| Treeify.CopyIsFaithful | src/components/HierarchicalDragList/useTreeify.ts:77 | a copy counts depths from 0, has no ids, holds the same entries in the same order, and copying it again changes nothing |
| Treeify.Detached | src/components/HierarchicalDragList/useTreeify.ts:69-80 | one copy per child of the root, in order, each with depth 0 |
| Treeify.DetachedDropsOnlyTheRoot | src/components/HierarchicalDragList/useTreeify.ts:75-79 | the detached trees hold every entry of the tree except the root, in pre-order, with depths counted from 0 and no ids |
| Treeify.TreeifyDetachedFromRoot | src/components/HierarchicalDragList/useTreeify.ts:69-80 | the detached view of the generated tree holds every entry but the root, in pre-order, as trees counting depths from 0 |
| Treeify.IsFalseHierarchyNodeRoot | src/components/HierarchicalDragList/useTreeify.ts:12-18 | a node is the false root exactly when it wraps the false-root object or has its id |
| Treeify.CopyKeepsOnlyDataTest | src/components/HierarchicalDragList/useTreeify.ts:12-18 | on a copy the false-root test holds exactly when the data is the false-root object; a node that passed by its id alone fails once copied |
| Treeify.IsFalseNode | src/components/HierarchicalDragList/useTreeify.ts:9-11 | no element of a caller's list is the false-root object |
| Treeify.IsFalseHierarchyNodeRootId | src/components/HierarchicalDragList/useTreeify.ts:16-18 | only a present id equal to `falseRootId` matches; an absent id never does |
| HierarchicalDragList.Optional | src/components/HierarchicalDragList/HierarchicalDragListGlobal.tsx:187 | an optional string as a nullish value: never `null`, and a string exactly when present |
| HierarchicalDragList.IsDropDisabled | src/components/HierarchicalDragList/HierarchicalDragListGlobal.tsx:184-195 | open when nothing is dragged or there is no parent accessor; otherwise closed exactly when the zone's parent differs from the remembered parent under `!==` |
| HierarchicalDragList.NullParentZoneClosed | src/components/HierarchicalDragList/HierarchicalDragListGlobal.tsx:190-193 | during a drag, a zone whose first node has a `null` parent is always closed |
| HierarchicalDragList.ActiveParentOf | src/components/HierarchicalDragList/HierarchicalDragListGlobal.tsx:360 | a parent is remembered exactly when the accessor exists and gives a non-empty string, and it is that string |
| HierarchicalDragList.DropOpenOnlyAmongSiblings | src/components/HierarchicalDragList/HierarchicalDragListGlobal.tsx:354-365 | once a drag has started, a zone is open exactly when it shares the dragged record's non-empty parent, or reads `undefined` when that parent is `null` or `""` |
| HierarchicalDragList.DragState.constructor | src/components/HierarchicalDragList/HierarchicalDragListGlobal.tsx:346-347 | the list starts idle: no active id and no active parent |
| HierarchicalDragList.DragState.OnDragStart | src/components/HierarchicalDragList/HierarchicalDragListGlobal.tsx:354-365 | the dragged id becomes active; the parent is updated only when the option is found |
| HierarchicalDragList.DragState.OnDragEnd | src/components/HierarchicalDragList/HierarchicalDragListGlobal.tsx:367-411 | the state goes back to idle whatever the drop, and the event emitted is `DropEvent` |
| HierarchicalDragList.ListIdOf | src/components/HierarchicalDragList/HierarchicalDragListGlobal.tsx:386-390 | stripping the tag never lengthens the id |
| HierarchicalDragList.DropEvent | src/components/HierarchicalDragList/HierarchicalDragListGlobal.tsx:367-411 | an event exactly when the drop lands, is not cancelled, stays in its droppable at a new index, and the dragged option exists. The event holds that option, the destination index, and the list id as parent (`null` for the top level) |
| HierarchicalDragList.ParentOnlyHasNoEffect | src/components/HierarchicalDragList/HierarchicalDragListGlobal.tsx:381-400 | the `parentOnly` check never changes the outcome |
| HierarchicalDragList.ListIdOfDroppableId | src/components/HierarchicalDragList/HierarchicalDragListGlobal.tsx:222 | stripping the tag from a droppable id gives back the list id, when the tag does not start inside the list id |
| HierarchicalDragList.MoveWithinListEvent | src/components/HierarchicalDragList/HierarchicalDragListGlobal.tsx:372-408 | a reorder inside one list emits an event with that list (or `null`) as parent and the destination index |
| HierarchicalDragList.IdentStr | src/components/HierarchicalDragList/HierarchicalDragListGlobal.tsx:34 | the ident string is empty exactly when no ident is given |
| HierarchicalDragList.CacheKey | src/components/HierarchicalDragList/HierarchicalDragListGlobal.tsx:35 | the key is the name followed by the ident string |
| HierarchicalDragList.FreshProps | src/components/HierarchicalDragList/HierarchicalDragListGlobal.tsx:41-44 | fresh props carry the name, and an ident `a=b` exactly when an ident pair is given |
| HierarchicalDragList.FreshPropsKey | src/components/HierarchicalDragList/HierarchicalDragListGlobal.tsx:35-45 | fresh props are filed under their own key |
| HierarchicalDragList.CacheKeyCollides | src/components/HierarchicalDragList/HierarchicalDragListGlobal.tsx:33-46 | two different requests share a key although their fresh props differ |
| HierarchicalDragList.DpNameCache.constructor | src/components/HierarchicalDragList/HierarchicalDragListGlobal.tsx:31 | the memo starts with no own entries, which keeps its invariant |
| HierarchicalDragList.DpNameCache.Get | src/components/HierarchicalDragList/HierarchicalDragListGlobal.tsx:33-46 | a key that names an `Object.prototype` member hits at once and returns that inherited member without caching; any other key returns the cached props and changes nothing, or caches and returns fresh props; props returned carry the key asked for, and every entry stays filed under its own key |
| HierarchicalDragList.ConstructorNameIsInherited | src/components/HierarchicalDragList/HierarchicalDragListGlobal.tsx:33-38 | `dpNameProp("constructor")` hits an inherited member on its first call |
| HierarchicalDragList.DividerOf | src/components/HierarchicalDragList/HierarchicalDragListGlobal.tsx:156-179 | a folder gets no divider and an item always gets one; the emphasised one only when no record after the item's first position shares its parent |
| HierarchicalDragList.EmphasisedIffLastOfParent | src/components/HierarchicalDragList/HierarchicalDragListGlobal.tsx:156-179 | an item gets the emphasised divider exactly when no later record shares its parent |
| HierarchicalDragList.OneEmphasisPerParent | src/components/HierarchicalDragList/HierarchicalDragListGlobal.tsx:156-179 | at most one item per parent gets the emphasised divider |
| HierarchicalDragList.AbsentLoneItemEmphasised | src/components/HierarchicalDragList/HierarchicalDragListGlobal.tsx:157-168 | an item that is not in the options and shares its parent with none of them is emphasised, because both searches give -1 |
| HierarchicalDragList.ListTreeOptions | src/components/HierarchicalDragList/HierarchicalDragListGlobal.tsx:349-352 | the list always uses the false root, and with no parent accessor every parent reads `null` |
| HierarchicalDragList.FlatListWithoutParentAccessor | src/components/HierarchicalDragList/HierarchicalDragListGlobal.tsx:349-352 | with no parent accessor, every option hangs directly under the false root |
| MutateBookmark.FirstFrom | src/components/MutateBookmark/MutateBookmark.tsx:160 | the first position at or after the start holding the character, or the end |
| MutateBookmark.LastIn | src/components/MutateBookmark/MutateBookmark.tsx:160 | the last position in the range holding the character, or one before the range |
| MutateBookmark.UrlAccepted | src/components/MutateBookmark/MutateBookmark.tsx:157-161 | an accepted URL starts with `https://` and is long enough to hold a host, a dot and a two-letter ending; `UrlAcceptedMatchesPattern` proves it equal to the regular expression |
| MutateBookmark.UrlAcceptedMatchesPattern | src/components/MutateBookmark/MutateBookmark.tsx:157-161 | the URL check accepts exactly the strings the regular expression matches |
| MutateBookmark.UrlAcceptsPlainHost | src/components/MutateBookmark/MutateBookmark.tsx:160 | `https://a.io` passes |
| MutateBookmark.UrlRefusesHttp | src/components/MutateBookmark/MutateBookmark.tsx:160 | an `http://` URL is refused |
| MutateBookmark.UrlRefusesSpaceInPath | src/components/MutateBookmark/MutateBookmark.tsx:160 | white space in the path is refused |
| MutateBookmark.FormValid | src/components/MutateBookmark/MutateBookmark.tsx:143-161 | the name is always required; the URL is required and must match the pattern exactly on the bookmark form |
| MutateBookmark.SubmittedRecord | src/components/MutateBookmark/MutateBookmark.tsx:121-123 | a folder form forces `isFolder`; nothing else is changed |
| MutateBookmark.Submit | src/components/MutateBookmark/MutateBookmark.tsx:118-135 | exactly one call: `addBookmark` on an Add form, `editBookmark` otherwise, with the submitted record |
| MutateBookmark.AddFolderFormAppends | src/components/MutateBookmark/MutateBookmark.tsx:121-126 | adding from the folder form appends the folder at the end of the list |
| MutateBookmark.FolderLabel | src/components/MutateBookmark/MutateBookmark.tsx:54 | the folder named "Root" is shown as "No Parent"; any other folder by its name |
| MutateBookmark.FolderOptions | src/components/MutateBookmark/MutateBookmark.tsx:51-56 | one option per folder, in order, with the folder id as value and its label as text |
| MutateBookmark.FolderOptionsAreStoredFolders | src/components/MutateBookmark/MutateBookmark.tsx:46-60 | the `i`-th option is the `i`-th stored folder, and the options follow stored order |
| MutateBookmark.ShownLabel | src/components/MutateBookmark/MutateBookmark.tsx:172-175 | the label of the first option with the current parent, or "" when there is no parent or no such option |
| MutateBookmark.RootFolderId | src/components/MutateBookmark/MutateBookmark.tsx:79-89 | an id exactly when a stored folder is named "Root", and then the id of the first such folder in stored order, the one `find` returns |
| MutateBookmark.AddDefaults | src/components/MutateBookmark/MutateBookmark.tsx:102-114 | the parent starts as the first stored folder named "Root" and is absent exactly when no folder has that name; the id is the fresh one |
| MutateBookmark.EditDefaults | src/components/MutateBookmark/MutateBookmark.tsx:91-100 | no reset exactly when the id is empty; otherwise a reset to the first stored record with the id, or to the form's defaults (`reset(undefined)`) exactly when none is stored |
| MutateBookmark.DefaultStoreDefaults | src/components/MutateBookmark/MutateBookmark.tsx:102-114 | on an empty store the parent defaults to the default folder, which is the only option and is shown as "No Parent" |

## Left out

- Rendering: the JSX, styles, icons, hover handlers, the `Draggable` and `Droppable` wiring, and the `HorizontalDivider` component. The divider is modelled as the value `DividerOf` chooses.
- JSON: `JSON.parse` and `JSON.stringify` are not modelled. The setting is a parsed `Option<seq<Bookmark>>`, with `None` for an unset or empty setting. A malformed setting, which makes `JSON.parse` throw, is not modelled.
- The Deskpro client and context: `client.setAdminSetting` is the `writes` log. The early `return null` when there is no client or context is not modelled.
- Random ids: `uuid` values (`falseRootId`, `topLevelId`, `dropableTag`, the new record's `Id`) are parameters.
- d3-hierarchy: `stratify` is a parameter. Nothing is proved about what it builds from the wrapped accessors, including its errors on duplicate ids, missing parents or several roots. The nodes' links back to their parents are not modelled.
- React: `useMemo`, `useCallback` and the order in which effects run are not modelled. In particular, the folder form's `setValue("ParentFolder", …)` (MutateBookmark.tsx:79-89) is overwritten by the `reset` that follows on an Add form and on an Edit form with a non-empty `objectId`. It survives only on an Edit form with an empty `objectId`, which never resets. The model gives each reset (`AddDefaults`, `EditDefaults`) and `RootFolderId` on its own.
- react-hook-form: validation timing and the error display are not modelled. The form's errors are not modelled as state. The manual URL error set at mount (MutateBookmark.tsx:72-77) is cleared by every reset; `EditReset` records whether an Edit form resets. `FormValid` states the field rules.
- Navigation: `setPageSettings(null)` after a submit is not modelled.
- Change events: `onChange` is optional in the component. `OnDragEnd` returns the event instead of calling it.
- Admin copy: its divider-free rendering and the other differences between the two copies of `HierarchicalDragList` are presentation only.
- Crashing inputs:
  - `Utilities.MoveBookmark` requires the id to be stored and the sibling index to exist. Otherwise the code reads `.Id` of `undefined` and throws.
  - `Utilities.RemoveBookmark` requires the id to be stored. Otherwise `bookmark.isFolder` throws.
- Callers: Main.tsx, the admin pages and the context provider are not part of this model.
- SettingsUtilities.AddWrites: its own contract states only that one list is written. What that list is comes from `AddIndex`, `Insert` and the `AddItem…`/`AddFolderAtEnd` lemmas.
- Bookmarks.Bookmark: an `undefined` `ParentFolder` has no value of its own, because the model reads it as `null`. The code keeps the two apart with `===`. Two places show the difference:
  - An Edit form reset with `reset(undefined)` can submit an `undefined` parent. `editBookmark` then compares `undefined === undefined` (useSettingsUtilities.ts:110), assigns index -1, and writes the list unchanged.
  - A record added while no folder is named "Root" is stored without `ParentFolder`. It reads back as `undefined`, so the sibling filter (useSettingsUtilities.ts:35-37) does not group it with `null`-parent records.
- SettingsUtilities.EditMissingIdDropsLast: holds for a submitted parent that is `null` or a folder id. With an `undefined` parent the code writes the list unchanged instead, a case the model does not represent (see `Bookmarks.Bookmark` above).
- HierarchicalDragList.ListIdOf: its own contract states only the length bound. The round trip with `DroppableId` is `ListIdOfDroppableId`.
