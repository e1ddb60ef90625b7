# Household shopping and stock-check app: a Dafny model

This project models the one part of the app that has behaviour of its own: the
state machine of an inventory item and the budget derived from the
inventory. It is written in Dafny. The app keeps household goods in a
document store. Each item carries three flags:
- `toBuy`: the item is on the shopping list;
- `isPacked`: the item is in the cart;
- `isChecking`: the item is flagged during a stock check as needing
  replenishment.

The app shows two lists:
- the stock check lists the items off the shopping list at the selected
  location, flagged items first;
- the shopping list lists the items on it, unpacked items first.

Two bulk operations move items between the lists. "Confirm" puts every
flagged item on the shopping list. "Finish shopping" flags every item again
for the next stock check. A banner shows the budget: 1.5 times the points
balance, rounded down, minus the total of the listed items. The settings
screen edits the category and location lists. The location list always ends
with the reserved entry "なし" (no location).

Modules:

- `Seqs` (seqs.dfy): `filter` as `Select`, and `map` as `Map`. `SortByKey` is
  the array `sort` with a comparator that orders by a two-valued key. It is an
  insertion sort, proved equal to "key-true elements first, then key-false
  ones, each group in input order". JavaScript's sort is stable, and a stable
  sort on such a comparator has exactly one result, so any stable sort agrees
  with it.
- `Items` (items.dfy): the item record and the add/edit form. `Consistent` is
  the flag invariant `!(toBuy && isChecking)` and `!toBuy ==> !isPacked`.
  `Phase` names the four phases: Stocked, Flagged, Listed and Collected.
  `Patch` lists the partial documents the app writes, and `Apply` performs
  one. `UpdateDoc` is a single-document write by id. `Finished` and
  `Confirmed` are the results of the two batches, and `Deleted` is the result
  of a delete.
- `Budget` (budget.dfy): `BudgetOf`, `TotalSpent` and `Remaining`, with the
  way each operation changes the total.
- `Views` (views.dfy): the stock list (`StockView`) and the shopping list
  (`ShoppingView`).
- `Taxonomy` (taxonomy.dfy): the list edits and the "なし" entry.
- `Inventory` (inventory.dfy): class `Store`, whose fields are the app's state
  (items, points, categories, locations, the persisted `settings/masters`
  document, the form, the item being edited). It has one method per event
  handler. Each write to the store is the change of `items` that the next
  snapshot shows. A batch is one assignment of the whole sequence, built by a
  loop, so it is atomic. A new document id is a parameter.

Behaviour of the code worth knowing:

- The handlers write without checking the flags first, and nothing
  normalises a document afterwards. A single write can break the flag
  invariant if it reaches an item the views never show it on. So each
  method promises the invariant only when it starts from a consistent
  collection and is called on an item the views show.
- The confirm handler runs even when nothing is flagged. The code hides its
  button in that case, but the handler itself does not check.
- Adding a location named "なし" through the text field gives a list with two
  "なし" entries, and the persisted list then contains "なし".
  `AddLocationShape` states the count for both cases.
- The budget sums over `toBuy` items, not over packed items.

## Model

| member | source | states |
|---|---|---|
| Budget.BudgetOf | app/page.tsx:49 | the budget is the floor of 1.5 times the points: `2*b <= 3*points < 2*b + 2`, for negative balances too |
| Budget.TotalSpent | app/page.tsx:50 | with nothing on the buy list the total is 0 |
| Budget.Remaining | app/page.tsx:51 | with nothing on the buy list the remaining amount is the whole budget; with non-negative prices and quantities it never exceeds the budget |
| Budget.TotalSpentIsSumOfCommitted | app/page.tsx:50 | the total is the sum of `price*quantity` over the items with `toBuy`; every other item adds 0 |
| Budget.TotalSpentAppend | app/page.tsx:50 | the total of a concatenation is the sum of the totals |
| Budget.TotalSpentNonNegative | app/page.tsx:50 | with non-negative prices and quantities the total is never negative |
| Budget.TotalSpentReplace | app/page.tsx:50 | replacing one item changes the total by the difference of the two items' contributions |
| Budget.TotalSpentUpdateDoc | app/page.tsx:132 | a single-document write changes the total by that item's change of contribution; flag flips and relabelling leave it unchanged |
| Budget.TotalSpentSetQuantity | app/page.tsx:141 | writing a listed item's quantity changes the total by its price times the change |
| Budget.TotalSpentSetPrice | app/page.tsx:142 | writing a listed item's price changes the total by the change times its quantity |
| Budget.TotalSpentDeleted | app/page.tsx:234 | deleting an item removes its contribution from the total |
| Budget.FinishedSpendsNothing | app/page.tsx:54-65 | after finishing a trip the total is 0 and the remaining amount is the whole budget |
| Budget.ConfirmedSpent | app/page.tsx:71-79 | confirming adds exactly the flagged items' `price*quantity` to the total, on a consistent collection |
| Budget.ExampleWithinBudget | app/page.tsx:49-51 | 1000 points give 1500; one listed item at 300 times 2 leaves 900 |
| Budget.ExampleOverBudget | app/page.tsx:105 | 100 points and one listed item at 200 leave -50; the remaining amount is not clamped |
| Budget.ExampleBudgetFloor | app/page.tsx:49 | rounding is downward: 1 point gives 1, 3 give 4, -1 gives -2 |
| Items.Consistent | app/page.tsx:59-62 | the flag invariant holds exactly when the flags name one of the four phases |
| Items.NewItem | app/page.tsx:85 | a created item has the given id and the form's fields, price 0, quantity 1, and is Flagged |
| Items.Apply | app/page.tsx:59-77 | a partial write (the batch writes here and the single writes at lines 132, 141, 142 and 177) sets the fields it names and keeps every other: `SetQuantity(q)` gives quantity `q`, `SetPrice(v)` price `v`, `FlipPacked`/`FlipChecking` negate their own flag and keep the other two, `Reset` gives `toBuy` and `isPacked` false and `isChecking` true, `Commit` gives `toBuy` true and `isChecking` false keeping `isPacked`; the id is always kept, the description changes only by Relabel, price and quantity only by their own writes, and those three writes leave the flags alone |
| Items.ApplyFollowsPhases | app/page.tsx:98 | every write the views permit moves a consistent item along the phase table `Next` (Reset to Flagged, Commit from Flagged to Listed, the flips between Listed and Collected and between Stocked and Flagged) and keeps it consistent |
| Items.FlipTwice | app/page.tsx:177 | toggling the same flag twice restores the item |
| Items.UpdateDoc | app/page.tsx:132 | a single-document write keeps the length, and exactly the documents with that id take the patch, every other one is unchanged |
| Items.UpdateDocAt | app/page.tsx:132 | with unique ids a single-document write changes exactly the one position holding the id |
| Items.UpdateDocMissing | app/page.tsx:92 | a write to an id no item has changes nothing |
| Items.UpdateDocFlipTwice | app/page.tsx:177 | toggling the same flag of the same document twice restores the collection |
| Items.UpdateDocKeepsInvariants | app/page.tsx:129 | a permitted write keeps the length, the ids, unique ids and the flag invariant |
| Items.Finished | app/page.tsx:57-64 | the batch keeps the length, and every document keeps its id and description and is Flagged |
| Items.RelabelKeeps | app/page.tsx:92 | writing the form to a document keeps every document's price, quantity and phase |
| Items.FinishedState | app/page.tsx:57-64 | after finishing every item is Flagged: `toBuy` and `isPacked` false and `isChecking` true, all other fields kept, length and ids kept |
| Items.Confirmed | app/page.tsx:72-78 | the batch keeps the length and the ids; afterwards no document is flagged, and a document is on the buy list exactly when it was on it or was flagged |
| Items.ConfirmedState | app/page.tsx:72-78 | after confirming, exactly the items that had `isChecking` have `toBuy` true and `isChecking` false, all else kept; the others are untouched |
| Items.ConfirmedPhases | app/page.tsx:77 | on a consistent collection confirming moves Flagged items to Listed, keeps every other phase and keeps the invariant |
| Items.Lookup | app/page.tsx:182 | the item found has the id asked for and is in the collection |
| Items.LookupAt | app/page.tsx:182 | with unique ids the item found is the one at the id's position |
| Items.Deleted | app/page.tsx:234 | the delete never makes the collection longer and leaves no document with that id |
| Items.DeletedAt | app/page.tsx:234 | with unique ids a delete removes exactly the position holding the id |
| Items.DeletedKeepsInvariants | app/page.tsx:234 | after a delete no item has that id, a delete of an id no item has changes nothing, ids stay unique and the flag invariant is kept |
| Seqs.SortByKeyIsPartition | app/page.tsx:99 | the comparator sort puts all key-true elements, in input order, before all key-false ones, in input order |
| Seqs.SortByKey | app/page.tsx:99 | the comparator sort is a permutation of its input: same length, same multiset |
| Views.StockView | app/page.tsx:97-99 | every entry of the stock list is an item of the collection, off the buy list, whose `loc` or `loc2` is the selected location unless "すべて" is selected |
| Views.StockViewContents | app/page.tsx:97-98 | the stock list holds exactly the items with `!toBuy` whose `loc` or `loc2` is the selected location, or all of them for "すべて", each as often as the collection holds it |
| Views.StockViewOrder | app/page.tsx:99 | every flagged item of the stock list precedes every unflagged one |
| Views.StockViewStable | app/page.tsx:97-99 | within the flagged and the unflagged groups the stock list keeps the collection's order |
| Views.ShoppingView | app/page.tsx:129 | every entry of the shopping list is an item of the collection that is on the buy list |
| Views.ShoppingViewContents | app/page.tsx:129 | the shopping list holds exactly the items with `toBuy`, each as often as the collection holds it |
| Views.ShoppingViewOrder | app/page.tsx:129 | every unpacked item of the shopping list precedes every packed one |
| Views.ShoppingViewStable | app/page.tsx:129 | within the unpacked and the packed groups the shopping list keeps the collection's order |
| Views.FinishedViews | app/page.tsx:54-67 | after finishing, the shopping list is empty and the stock list for all locations is the whole collection in its order |
| Views.ConfirmedStockView | app/page.tsx:71-79 | after confirming, the stock list holds no flagged item |
| Taxonomy.Without | app/page.tsx:206 | the filter removes every occurrence of the entry and keeps every other entry with its multiplicity |
| Taxonomy.WithoutAppend | app/page.tsx:206 | filtering a concatenation is filtering each part, so the kept entries stay in their order |
| Taxonomy.AddedLocations | app/page.tsx:212 | the persisted list ends with the new name, keeps every other user entry with its multiplicity, and holds "なし" only when the new name is "なし" |
| Taxonomy.RemovedLocations | app/page.tsx:214 | the persisted list holds neither the removed entry nor "なし", and keeps every other entry with its multiplicity |
| Taxonomy.AddLocationShape | app/page.tsx:212 | the held list after an add ends with "なし" and holds one "なし", or two when the new name is "なし" |
| Taxonomy.RemoveLocationShape | app/page.tsx:214 | the held list after a remove ends with "なし" and holds exactly one |
| Taxonomy.SentinelRoundTrip | app/page.tsx:44 | for a user list without "なし", the list persisted, read back with "なし" appended and filtered again is the same user list |
| Inventory.Store.constructor | app/page.tsx:20-30 | the initial points, lists, form and empty collection |
| Inventory.Store.SetPoints | app/page.tsx:113 | an empty points entry is 0; otherwise the entry becomes the balance |
| Inventory.Store.FinishShopping | app/page.tsx:54-65 | a declined dialog changes nothing; otherwise the collection becomes `Finished` of the old one, consistent, with total 0 and an empty shopping list |
| Inventory.Store.ConfirmToBuyList | app/page.tsx:71-79 | returns the number of flagged items; a declined dialog changes nothing; otherwise the collection becomes `Confirmed` of the old one, and on a consistent collection it stays consistent and the total grows by the flagged items' total |
| Inventory.Store.AddItem | app/page.tsx:83-87 | an empty name changes nothing; otherwise exactly one `NewItem` from the form is appended, the form keeps only its category and locations, the invariant and the total are kept |
| Inventory.Store.BeginEdit | app/page.tsx:182 | opens the edit dialog on the item and loads its fields into the form, an empty second location read as "なし" |
| Inventory.Store.UpdateItem | app/page.tsx:90-94 | without an open dialog the items are unchanged; otherwise only the edited item's descriptive fields take the form's values; prices, quantities, phases and the total are kept; the dialog closes |
| Inventory.Store.DeleteItem | app/page.tsx:234 | a declined dialog changes nothing; otherwise the edited item is gone, its contribution leaves the total, the dialog closes, and ids and the invariant are kept |
| Inventory.Store.TogglePacked | app/page.tsx:132 | flips `isPacked` of one listed item only; doing it again restores the collection; the invariant and the total are kept |
| Inventory.Store.ToggleChecking | app/page.tsx:177 | flips `isChecking` of one item off the shopping list only; doing it again restores the collection; the invariant and the total are kept |
| Inventory.Store.UpdateQuantity | app/page.tsx:139-141 | writes one unpacked listed item's quantity only; ids and the invariant are kept; for the item with that id the total changes by its price times the change |
| Inventory.Store.UpdatePrice | app/page.tsx:139-142 | writes one unpacked listed item's price only; ids and the invariant are kept; for the item with that id the total changes by the change times its quantity |
| Inventory.RelabelEdit | app/page.tsx:90-94 | saving the edit form to a document keeps ids unique, keeps every document's price, quantity and phase, keeps the flag invariant and leaves the total unchanged |
| Inventory.QuantityEdit | app/page.tsx:141 | writing a listed item's quantity keeps ids unique and the flag invariant, and changes the total by its price times the change |
| Inventory.PriceEdit | app/page.tsx:142 | writing a listed item's price keeps ids unique and the flag invariant, and changes the total by the change times its quantity |
| Inventory.Store.AddCategory | app/page.tsx:204 | an empty name changes nothing; otherwise the name is appended and both lists are persisted, the locations without "なし"; items are untouched |
| Inventory.Store.RemoveCategory | app/page.tsx:206 | a declined dialog changes nothing; otherwise every occurrence is removed and the lists persisted; items keep the category |
| Inventory.Store.AddLocation | app/page.tsx:212 | an empty name changes nothing; otherwise the user entries, the new name and "なし" are held and the list without the last entry is persisted; for a name other than "なし" there is exactly one "なし" and none is persisted |
| Inventory.Store.RemoveLocation | app/page.tsx:214 | a declined dialog changes nothing; otherwise every occurrence and every "なし" is removed from the persisted list, the held list ends with exactly one "なし", and items keep the location |
| Inventory.Store.ReceiveMasters | app/page.tsx:40-45 | each list present in the document replaces the held one, the location list with "なし" appended |

## Left out

- Document store I/O is not modelled: the connection, batch commits as network operations, write failures and the timing of snapshots. Each write to the inventory collection is the in-memory change the next snapshot would show. The `settings/masters` document as last written is the field `Store.masters`, which the taxonomy methods set. `ReceiveMasters` takes the document a snapshot delivers as a parameter and does not read `Store.masters`.
- The inventory and points subscriptions are not modelled (app/page.tsx:33-39). The write of the points document at app/page.tsx:113 is left out too; `SetPoints` only sets the held balance. Neither is the collection's ordering by name. `AddItem` appends, and a renamed item stays in place; the views keep whatever order the collection has.
- The `confirm()` dialogs are boolean parameters. A declined dialog is a no-op.
- UI-only state is not modelled: the active tab, the location selector, the modal flags, the input fields' clearing, `DebouncedInput`, and the close button of the edit dialog. Typing into the form is not a method; the form is a field.
- Number handling: points, prices and quantities are integers. JavaScript's `Number(...)` coercions, NaN and the `|| 0` defaults are not modelled. Neither is the per-item display with `quantity || 1` (app/page.tsx:145) or `toLocaleString`.
- `ReceiveMasters` takes two booleans for "the field is present". They stand in for JavaScript truthiness of the document's fields.
- `ConfirmToBuyList`: its batch walks the whole collection and updates the flagged positions. The code instead walks the filtered list and updates by id. The two agree because ids are unique (`Store.Valid`).
- `TogglePacked`, `ToggleChecking`: each writes the negation of the current flag. The code writes the negation of the rendered copy's flag. They agree as long as there is no other writer.
- components/BudgetCard.tsx, components/AddItemModal.tsx, components/ShoppingList.tsx, app/layout.tsx and tailwind.config.ts are not part of this model. They are rendering, configuration, or a form whose only logic is a non-empty check and `parseInt`.
