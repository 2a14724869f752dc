# Tracalorie item store, modelled in Dafny

Tracalorie is a single-page calorie tracker. The user logs meals (a name and a
calorie count), edits or deletes them, and sees a running total. The list
survives page reloads through the browser's `localStorage`.

All of the program is in `app.js`. Its logic sits in three module singletons:

- `ItemCtrl` owns the item list, the item being edited and the cached total.
- `StorageCtrl` mirrors the list in one storage slot.
- `App` wires UI events to both of them.

This project models those three parts. The `UiCtrl` DOM rendering is not modelled.

Files and modules:

- `items.dfy` (`Items`): the `Item` record, the list operations of `ItemCtrl`
  written as functions on sequences, and the lemmas about them. These cover id
  assignment, strictly increasing ids, lookup by id, update by id, delete
  through `indexOf` and `splice`, and the calorie sum.
- `storage.dfy` (`Storage`): class `StorageCtrl`. Its storage slot is an
  `Option<seq<Item>>` field, and `None` means nothing is stored. Each list
  operation reads the whole list, changes it and writes it back.
  `deleteStoredItem` splices entries out while `forEach` walks the array. The
  model keeps that behaviour: the entry that moves into a removed entry's
  position is skipped (`SpliceWalk`).
- `item_store.dfy` (`ItemStore`): class `ItemCtrl`. Its fields are `items`,
  `currentItem` and `totalCalories`. The `forEach` loops become `for` loops
  proved against the functions of `Items`.
- `decimal.dfy` (`Decimal`) and `dom_ids.dfy` (`DomIds`): two string
  conversions. One is the decimal text of ids and calories. The other is the
  list element id `item-${id}` and how `parseInt(elemId.match(/\d+/))` reads it
  back.
- `controller.dfy` (`Controller`): class `App` with the event handlers, the UI
  calls removed. `InSync()` says the stored list equals the in-memory list.
  Every handler keeps that true, with one exception: a delete needs distinct
  ids and a current id that is in the list.
  The delete handler depends on the rendered list in one place.
  `deleteListItem` looks up the element `item-${id}` and calls `remove()` on it.
  When no entry has the current id there is no such element, the call throws,
  and the stored delete and the total update never run. The model takes the
  rendered list to hold one element per entry of the in-memory list, and
  models that abort.

The model reproduces two quirks of the source instead of fixing them:

- `deleteItem` with an absent id. `indexOf` returns -1, so `splice(-1, 1)`
  removes the last entry. `Items.DeleteByIdCases` states this. In that case
  storage keeps the entry, and `Storage.DeleteAbsentDiverges` shows that the
  two lists then differ. In the delete handler the storage call is never
  reached, so the two lists differ there too.
- `updateItem` reads `data.currentItem.id` once for every entry. It therefore
  needs a selection whenever the list is non-empty.

A reader might expect behaviour the code does not have. The model follows the
code:

- An update or delete whose id matches nothing does not report "not found".
  The update changes nothing. The delete removes the last entry.
- `itemUpdateSubmit` does not validate its input.
- `clearAll` leaves the current selection as it was.
- `getItemById` returns the last entry with the id, not the first.
- Stored text that fails to parse makes `JSON.parse` throw. The code does not
  fall back to an empty list.

## Model

| member | source | states |
|---|---|---|
| `Items.Ids` | app.js:135 | the id projection has the list's length and holds each entry's id at the same position |
| `Items.IndexOf` | app.js:138 | `indexOf` returns -1 exactly when the id is absent; otherwise it returns a position holding the id with no earlier occurrence |
| `Items.SpliceStart` | app.js:141 | the position `splice` acts on: a negative start counts back from the end, and the result is clamped to [0, len] |
| `Items.SpliceOne` | app.js:141 | `splice(start, 1)` removes the entry at the normalised start and keeps the others in order; it removes nothing when the normalised start is the length, as for a start at or past the end or any start on an empty list |
| `Items.SpliceMinusOne` | app.js:141 | `splice(-1, 1)` on a non-empty list removes the last entry |
| `Items.DeleteById` | app.js:133-144 | after `deleteItem` a non-empty list is one entry shorter and an empty list stays empty; `Items.DeleteByIdCases` says which entry goes |
| `Items.DeleteByIdCases` | app.js:133-144 | `deleteItem(id)` removes the first entry with the id and keeps the others in order; with the id absent it removes the last entry; an empty list stays empty |
| `Items.RemoveAtKeepsIncreasing` | app.js:141 | removing one entry keeps the ids strictly increasing |
| `Items.DeleteKeepsIncreasing` | app.js:133-144 | `deleteItem` keeps the ids strictly increasing, whether or not the id is present |
| `Items.DeleteRemovesId` | app.js:133-144 | on a list with distinct ids, in any order, `getItemById(id)` finds nothing after `deleteItem(id)` |
| `Items.LastWithId` | app.js:109-117 | `getItemById` finds nothing exactly when no entry has the id, and otherwise an entry of the list carrying the id |
| `Items.LastIndexWithId` | app.js:109-117 | the scan gives -1 exactly when no entry has the id; otherwise it gives a position holding the id with no later entry holding it |
| `Items.LastWithIdUnique` | app.js:109-117 | on a list with distinct ids, in any order, `getItemById` returns the one entry carrying that id |
| `Items.NextId` | app.js:92-98 | on a list with increasing ids, the id `addItem` assigns is above every existing id |
| `Items.Add` | app.js:89-107 | `addItem` keeps the old entries and appends one with the given name and calories; increasing ids stay increasing |
| `Items.AddAllFromEmpty` | app.js:89-107 | n calls of `addItem` on an empty list give ids 0..n-1 in order, each entry with its own name and calories |
| `Items.Replaced` | app.js:119-131 | replacing by id gives a list of the same length: entries with the id become the new item and all others stay in place |
| `Items.ReplacedKeepsIds` | app.js:123-129 | an update by id keeps every id and its position, so increasing ids stay increasing |
| `Items.ReplacedUnique` | app.js:123-129 | with distinct ids, in any order, an update changes exactly the one entry with the id |
| `Items.Sum` | app.js:158-167 | the calorie total is never negative when no entry's calories are |
| `Items.SumConcat` | app.js:158-167 | the total of two lists joined is the sum of their totals |
| `Items.SumAdd` | app.js:158-167 | adding an item raises the total by its calories |
| `Items.SumRemoveAt` | app.js:158-167 | removing the entry at i lowers the total by its calories |
| `Items.SumReplaced` | app.js:158-167 | with distinct ids, in any order, updating an entry changes the total by the difference in calories |
| `Items.Scenario` | app.js:89-167 | add Eggs/100 then Toast/200 (ids 0 and 1, total 300), update id 0 to 150 (total 350), delete id 1 (only id 0 left, total 150) |
| `Decimal.DigitsValue` | app.js:101 | `parseInt` on decimal digits: a leading zero does not change the value and a single digit is worth its own value; `Decimal.NatStringRoundTrip` makes it the inverse of `${n}` |
| `Decimal.NatString` | app.js:203 | the decimal text of a natural number is all digits, and it starts with 0 only for zero |
| `Decimal.IntString` | app.js:231 | the text of a negative id is a minus sign followed by digits |
| `Decimal.NatStringRoundTrip` | app.js:386 | `parseInt` on the decimal text of a natural number gives that number back |
| `DomIds.ElemId` | app.js:231 | the element id is `item-` followed by the id's digits, with a minus sign first for a negative id |
| `DomIds.LeadingDigits` | app.js:386 | the longest digit prefix: only digits, and followed by a non-digit or by the end |
| `DomIds.FirstDigitIndex` | app.js:386 | the position where `match(/\d+/)` starts: the leftmost digit, or -1 exactly when there is no digit |
| `DomIds.FirstDigitRun` | app.js:386 | `match(/\d+/)` is null exactly when the string has no digit, and otherwise the maximal digit run starting at the leftmost digit |
| `DomIds.ParseElemId` | app.js:386 | `parseInt(elemId.match(/\d+/))` is NaN exactly when the element id has no digit, and otherwise a non-negative number |
| `DomIds.ParseAfterNonDigits` | app.js:386 | a digit-free prefix followed by digits parses as the value of those digits |
| `DomIds.SkipNonDigits` | app.js:386 | a prefix without digits is skipped when the first digit run is searched for |
| `DomIds.ElemIdRoundTrip` | app.js:386 | for a non-negative id, parsing the element id `item-${id}` gives the id back |
| `DomIds.ElemIdDropsSign` | app.js:386 | for a negative id, parsing the element id gives the id without its sign |
| `Storage.SpliceWalk` | app.js:39-44 | the splicing walk keeps the entries before its position and never makes the list longer |
| `Storage.SpliceWalkDropsOnlyId` | app.js:39-44 | the walk adds nothing and drops only entries with the id: every other entry keeps its number of occurrences |
| `Storage.DeleteStored` | app.js:37-46 | `deleteStoredItem` never makes the stored list longer |
| `Storage.DeleteStoredKeepsOthers` | app.js:37-46 | `deleteStoredItem` adds nothing and keeps every entry whose id differs |
| `Storage.SpliceWalkNoMatch` | app.js:39-44 | the splicing walk changes nothing when no entry from the current position on has the id |
| `Storage.SpliceWalkSingle` | app.js:39-44 | the walk removes exactly the single entry that has the id |
| `Storage.DeleteStoredAbsent` | app.js:37-46 | `deleteStoredItem` with an absent id leaves the stored list unchanged |
| `Storage.DeleteStoredUnique` | app.js:37-46 | with distinct ids, in any order, `deleteStoredItem` removes exactly the entry with the id |
| `Storage.SpliceWalkSkipsNeighbour` | app.js:39-44 | when the entries at positions k and k + 1 both carry the id, the walk removes the first and keeps the second, which it never visits |
| `Storage.DeleteAgrees` | app.js:412-428 | for a present id in a list with distinct ids, in any order, the in-memory delete and the stored delete give the same list |
| `Storage.DeleteAbsentDiverges` | app.js:412-428 | for an absent id on a non-empty list, memory drops its last entry while storage keeps the whole list |
| `Storage.StorageCtrl.constructor` | app.js:11 | the storage slot starts with whatever the browser holds, or nothing |
| `Storage.StorageCtrl.GetStoredItems` | app.js:9-13 | returns the stored list, or [] when the slot is empty |
| `Storage.StorageCtrl.SetStoredItems` | app.js:15-18 | the slot holds exactly the given list |
| `Storage.StorageCtrl.StoreItem` | app.js:20-24 | the stored list becomes the old one with the item appended |
| `Storage.StorageCtrl.UpdateStoredItem` | app.js:26-35 | stored entries with the item's id are replaced by it; length and ids are kept; a null item is accepted only on an empty list |
| `Storage.StorageCtrl.DeleteStoredItem` | app.js:37-46 | the stored list becomes the result of the splicing walk, and is unchanged when the id is absent |
| `Storage.StorageCtrl.ClearStorage` | app.js:48-50 | the slot is emptied, and the stored list reads as [] |
| `ItemStore.ItemCtrl.constructor` | app.js:69-81 | the store starts with the stored list, no selection and a zero total |
| `ItemStore.ItemCtrl.GetItems` | app.js:85-87 | returns the list |
| `ItemStore.ItemCtrl.AddItem` | app.js:89-107 | the new id is the last id + 1, or 0 on an empty list; exactly the new item is appended; increasing ids stay increasing; selection and total are untouched |
| `ItemStore.ItemCtrl.GetItemById` | app.js:109-117 | returns the last entry with the id, and None exactly when no entry has it |
| `ItemStore.ItemCtrl.UpdateItem` | app.js:119-131 | every entry with the current id gets the new name and calories, and ids, order and length are unchanged; returns the updated item, or None when nothing matched |
| `ItemStore.ItemCtrl.DeleteItem` | app.js:133-144 | removes the first entry with the id, or the last entry when the id is absent; increasing ids stay increasing and the id is then gone; the selection is cleared |
| `ItemStore.ItemCtrl.ClearAll` | app.js:146-148 | the list becomes empty; selection and total are untouched |
| `ItemStore.ItemCtrl.SetCurrentItem` | app.js:150-152 | the selection becomes the given item (or none) and nothing else changes |
| `ItemStore.ItemCtrl.GetCurrentItem` | app.js:154-156 | returns the selection |
| `ItemStore.ItemCtrl.CalcTotalCals` | app.js:158-167 | returns the sum of all calories and caches it in the total; the list and the selection are unchanged |
| `Controller.Selection` | app.js:386-390 | the clicked entry is none exactly when the element id has no digit or no entry has the parsed id; otherwise it is an entry of the list carrying the parsed id |
| `Controller.ClickSelectsItem` | app.js:372-396 | on a list with distinct ids, clicking the edit icon of an entry with a non-negative id selects that entry |
| `Controller.App.constructor` | app.js:482-497 | after start-up the lists agree, the total is the sum, and nothing is selected |
| `Controller.App.UpdateTotalCals` | app.js:343-347 | the cached total becomes the sum of the list |
| `Controller.App.ItemAddSubmit` | app.js:349-370 | with an empty name or calories nothing changes; otherwise the item is appended in memory and in storage, and the total is the new sum; lists that agreed still agree |
| `Controller.App.ItemEditClick` | app.js:372-396 | the selection becomes the entry found by the id parsed from the element id, or none for NaN |
| `Controller.App.ItemUpdateSubmit` | app.js:398-410 | the same replacement happens in memory and in storage, and the total is the new sum; lists that agreed still agree |
| `Controller.App.ItemDeleteSubmit` | app.js:412-428 | the current id is deleted in memory and the selection is cleared; if the id was present it is deleted in storage and the total is recomputed; if it was absent, `deleteListItem` throws and storage and total stay as they were, so lists that agreed on a non-empty list no longer agree; with distinct ids and the id present, lists that agreed still agree |
| `Controller.App.ClearAllClick` | app.js:430-448 | the list and storage are emptied, the total is 0, the selection stays, and the lists agree |

## Left out

- `UiCtrl` (app.js:181-334) is left out. It is DOM queries, HTML templates and style changes. It affects the store only through two throws that stop a handler part-way. The first is in `deleteListItem` (app.js:264-267): it throws when no element `item-${id}` exists. `Controller.App.ItemDeleteSubmit` models that throw, taking the rendered list to hold one element per in-memory entry. The second is in `updateListItem(null)` (app.js:251-253): it reads `updatedItem.id` for every rendered entry, and its throw stops `updateTotalCals` and `updateStoredItem` (app.js:402-405). The `requires` of `Controller.App.ItemUpdateSubmit` excludes that case.
- Event wiring, the keypress blocker, `M.toast`, `e.preventDefault` and the DOM part of `App.init` are left out. They are browser plumbing.
- `logData` is left out. It is a debugging accessor that returns the whole private record.
- `localStorage` and `JSON.stringify`/`JSON.parse` are left out. The slot is an abstract optional list, and a list is assumed to read back exactly as it was written. Malformed stored text, which makes `JSON.parse` throw, is not modelled.
- JavaScript numbers are modelled as unbounded integers. Floating-point precision, overflow and `NaN` are not modelled.
- ItemStore.ItemCtrl.AddItem: calories must be a non-empty string of decimal digits. `parseInt` on other text (a sign, spaces, trailing letters, or `NaN` for no digits) is not modelled.
- ItemStore.ItemCtrl.UpdateItem: the same restriction on calories. The selection is a copy, so unlike the source's shared object it does not take the new name and calories.
- ItemStore.ItemCtrl.UpdateItem: requires a selection when the list is non-empty. Without one the source throws a `TypeError`.
- Controller.App.ItemAddSubmit: calories that pass the emptiness check must be decimal digits, for the same reason.
- Controller.App.ItemUpdateSubmit: calories must be decimal digits, because the source does not validate them and may store `NaN`.
- Controller.App.ItemUpdateSubmit: requires a non-empty list to hold the current id, and storage to be empty when the list is. Otherwise the source throws while redrawing or storing a null item.
- Controller.App.ItemDeleteSubmit: requires a selection. The source dereferences `currentItem.id` and throws without one.
- Controller.App.ItemDeleteSubmit: the rendered list is not modelled. Whether `item-${id}` exists is taken to be whether the list held the id before the delete. After an aborted delete the rendered list and the in-memory list really differ, and the model does not follow that.
- Storage.StorageCtrl.UpdateStoredItem: requires the item to be present unless storage is empty. The source reads `updatedItem.id` for every stored entry, and a null item throws a `TypeError` (app.js:30).
- Controller.App.ItemEditClick: the click target check and the walk from the icon to its `<li>` are not modelled. The handler receives the element id.
