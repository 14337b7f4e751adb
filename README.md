# Chroniton: the ordered reminder model

Chroniton is an iOS app that keeps reminders ("events") in named
categories. Each event has a title, notes, a "last done" date and a "next
due" date. The app's one real invariant is kept by `Model`. The categories
carry an integer `orderIndex` that must be exactly 0 .. n-1. Within each
category, the events carry an `orderIndex` that must be exactly 0 .. m-1.
The table views use these keys directly as rows and sections, so a gap or a
duplicate key is a visible bug. Every create, delete, move and re-parent
operation of `Model` must keep both orders dense.

This project models that core in Dafny and proves that it does:

- `records.dfy` (module `Records`). The two record classes `Category` and
  `Event`, with their constructors, the `willSave` default-name rules,
  `orderedEvents()`, and the due-date rule `isDue(withinDays:)`.
- `ordering.dfy` (module `Ordering`). Sequences listing a set, order keys
  ranked by position, and the key updates the model's loops make:
  - bump the keys at or above k;
  - drop the keys above k;
  - renumber by position.
  It also holds the insertion sort standing in for the sorted fetch.
- `store.dfy` (module `Store`). The object store read as a value
  (`Contents`). It holds one function per model operation, the store
  invariant `Consistent` (the keys are dense and the relationship is
  two-sided), and a lemma per operation showing what keeps `Consistent`.
- `model.dfy` (module `ReminderModel`). The class `Model`, with the
  operations written as the source writes them: fetch, loop over the
  fetched list, rewrite `orderIndex` fields, reassign `category.events`.
  Each method is proved to move the ghost copy of the store to the matching
  function of `Store`.
- `app.dfy` (module `App`). The classes `AppState` and `AppController`: the
  three command dispatchers and the selection rules.
- `datagen.dfy` (module `DataGenerator`). It loads categories and events
  from a JSON value, given as a datatype. It is specified twice:
  - by the records the data describes, as pure functions with lemmas;
  - by the method that adds them to the model, proved to append exactly
    those records.
- `datestr.dfy` (module `DateStrings`). The date-string helpers. The
  locale's parse and format and the calendar steps are parameters.
- `dates.dfy`, `optional.dfy`. Dates as whole seconds, and Swift's optionals.

Two kinds of precondition appear.

- Some come from the source. `Array.insert` traps when the index is past the
  end, and `event.category!` traps for an unfiled event. These become
  `requires` clauses on the moves, and on delete and move of events.
- The others are `Valid()`, the model's own invariant (dense keys and a
  two-sided relationship). It is not something the source demands.
  - Every operation of the model keeps `Valid()` when placed in range.
  - This holds because `createNewEvent` is modelled with the corrected
    default (see Findings).
  - Operations that require `Valid()` therefore do not cover the stores with
    gapped event keys that the code as written reaches. Each one is listed
    under Left out.

`createNewCategory` and `createNewEvent` accept any index. Their models
therefore take any index and prove instead that the store stays consistent
exactly when the index is one of the slots 0 .. n.

Where the code and its comments or the app's description differ, the model
follows the code:

- The comment on `createNewEvent` promises "insert at top, index 0". The
  code takes `events.count` instead. The model appends (see Findings).
- The comment on `moveEvent(_:toNewCategory:atIndex:)` promises "add to end
  of events". The code's default position is 0, which the model keeps.
- A move into the event's own category becomes `moveEvent(toNewIndex:
  atIndex ?? 0)`.
- Deleting a category also deletes its events. This is done by the Core Data
  cascade rule, which the model writes out as part of `RemoveCategory`.
- The implicit removal from the old category, when `toCategory.events` is
  assigned, is written out in `AdoptEvent`.

## Model

| member | source | states |
|---|---|---|
| Records.Category.constructor | ios_project/Chroniton/Chroniton/model/Category.swift:14-18 | a new category has the given name, orderIndex -1 and no events |
| Records.Category.WillSave | ios_project/Chroniton/Chroniton/model/Category.swift:38-42 | a nil or empty name becomes "New Category"; a non-empty name is kept; afterwards the name is never empty |
| Records.Category.OrderedEvents | ios_project/Chroniton/Chroniton/model/Category.swift:45-56 | the result holds every event of the relationship exactly once, with no additions, with keys non-decreasing; an empty relationship gives the empty list |
| Records.Event.constructor | ios_project/Chroniton/Chroniton/model/Event.swift:14-18 | a new event has the given title, orderIndex -1, no notes or dates and no category |
| Records.Event.WillSave | ios_project/Chroniton/Chroniton/model/Event.swift:45-49 | a nil or empty title becomes "New Event"; a non-empty title is kept; afterwards the title is never empty |
| Records.IsDueCases | ios_project/Chroniton/Chroniton/model/Event.swift:67-93 | unfolds the due rule into its four cases: not due without a next date; due with a next date and no last date; not due when the last date is on or after the next date; otherwise due iff the next date is strictly before the end of today plus numDays days |
| Records.IsDueWithinAnyHorizon | ios_project/Chroniton/Chroniton/model/Event.swift:62-64 | `isDue()` is the zero-day horizon: due today implies due within any horizon of zero or more days, and due within a horizon ending today or earlier implies due today |
| Records.Event.IsDueWithin | ios_project/Chroniton/Chroniton/model/Event.swift:67-93 | the due rule itself; its cases are stated by `Records.IsDueCases` and its monotonicity by `Records.IsDueMonotone` |
| Records.Event.IsDue | ios_project/Chroniton/Chroniton/model/Event.swift:62-64 | due with a zero-day horizon; related to every other horizon by `Records.IsDueWithinAnyHorizon` |
| Records.IsDueMonotone | ios_project/Chroniton/Chroniton/model/Event.swift:85-92 | for a fixed end of today, a longer horizon never makes a due event not due |
| Records.DueHasOpenNextDate | ios_project/Chroniton/Chroniton/model/Event.swift:67-83 | a due event has a next date, and its last date is missing or earlier |
| Dates.AddDaysMonotone | ios_project/Chroniton/Chroniton/model/Event.swift:86-87 | adding more days never gives an earlier date |
| Ordering.SortByKey | ios_project/Chroniton/Chroniton/model/Category.swift:50 | the sort returns each element of the set once, sorted non-decreasing by key |
| Ordering.SortedMatchesRanked | ios_project/Chroniton/Chroniton/model/Category.swift:45-52 | when the keys are the positions of a listing, any sorted listing is that listing, so a sorted fetch returns the model's order |
| Ordering.RankedKeysAreDense | ios_project/Chroniton/Chroniton/model/Model.swift:49-56 | keys ranked by a listing are exactly 0 .. n-1, each used by one record |
| Ordering.InsertRanked | ios_project/Chroniton/Chroniton/model/Model.swift:64-76 | bumping the keys at or above k and giving the new record k ranks the list with the record inserted at k |
| Ordering.RemoveRanked | ios_project/Chroniton/Chroniton/model/Model.swift:87-95 | dropping the keys above the removed record's key ranks the list without it |
| Ordering.MoveListing | ios_project/Chroniton/Chroniton/model/Model.swift:108-109 | filter-then-insert keeps the same elements, puts the moved one at the target, and keeps the relative order of the others |
| Ordering.MoveToSamePlace | ios_project/Chroniton/Chroniton/model/Model.swift:108-109 | moving an element to its current position changes nothing |
| Ordering.RenumberedRanks | ios_project/Chroniton/Chroniton/model/Model.swift:111-113 | renumbering by position ranks a list of distinct records |
| Ordering.InsertListing | ios_project/Chroniton/Chroniton/model/Model.swift:229-230 | inserting a new record into a listing lists the set with that record added |
| Ordering.RemoveListing | ios_project/Chroniton/Chroniton/model/Model.swift:178-180 | removing a record from a listing lists the set without it, one shorter |
| Ordering.RemoveInserted | ios_project/Chroniton/Chroniton/model/Model.swift:228-245 | removing a record just inserted gives back the original list |
| Ordering.MoveRenumbered | ios_project/Chroniton/Chroniton/model/Model.swift:108-113 | move-then-renumber keeps the same elements, ranks them 0 .. n-1, puts the record at the target and keeps the others in order |
| Ordering.RemoveRenumbered | ios_project/Chroniton/Chroniton/model/Model.swift:181-184 | remove-then-renumber leaves the others ranked 0 .. n-2 in their old order, the list cut at the removed key |
| Ordering.InsertRenumbered | ios_project/Chroniton/Chroniton/model/Model.swift:230-235 | insert-then-renumber ranks the list with the record at the target and the old list around it |
| ReminderModel.Model.AllCategories | ios_project/Chroniton/Chroniton/model/Model.swift:14-29 | the fetch lists every category once, sorted by key, and in a valid model it is the category order |
| ReminderModel.Model.constructor | ios_project/Chroniton/Chroniton/controller/AppController.swift:111 | a new model is valid and holds no categories and no events (the app reads the persisted store here; see Persistence under Left out) |
| ReminderModel.Model.CategoryOrder | ios_project/Chroniton/Chroniton/model/Model.swift:14-29 | in a valid model, the fetched categories are exactly the category order |
| ReminderModel.Model.FetchEvents | ios_project/Chroniton/Chroniton/model/Category.swift:45-56 | a category's sorted fetch returns the listing its keys rank |
| ReminderModel.Model.OrderedEventsOf | ios_project/Chroniton/Chroniton/model/Category.swift:45-56 | in a valid model, `orderedEvents()` is the category's event order |
| ReminderModel.Model.CreateNewCategory | ios_project/Chroniton/Chroniton/model/Model.swift:61-80 | the store becomes `AddCategory` at `index ?? n`: keys at or above it move up, the new named category takes it; the model stays valid iff 0 <= index <= n |
| ReminderModel.BumpCategoryKeys | ios_project/Chroniton/Chroniton/model/Model.swift:67-72 | each fetched category's key goes up by one when at or above k and is kept otherwise |
| ReminderModel.Model.BumpCategories | ios_project/Chroniton/Chroniton/model/Model.swift:64-72 | the fetch-and-bump loop raises the keys at or above k of the stored categories and changes nothing else |
| ReminderModel.Model.AddCategoryRecord | ios_project/Chroniton/Chroniton/model/Model.swift:75-76 | a fresh category with the name and key k is stored, inserted in the order, with no events |
| Store.AddCategoryConsistent | ios_project/Chroniton/Chroniton/model/Model.swift:61-80 | creating a category keeps the store consistent exactly when the position is one of 0 .. n |
| Store.AddCategory | ios_project/Chroniton/Chroniton/model/Model.swift:61-80 | the store after `createNewCategory`; its consistency is stated by `Store.AddCategoryConsistent` and `Store.AddCategoryOrder` |
| Store.AddCategoryOrder | ios_project/Chroniton/Chroniton/model/Model.swift:64-76 | the category keys stay dense after the insertion exactly when the position is one of 0 .. n |
| ReminderModel.Model.DeleteCategory | ios_project/Chroniton/Chroniton/model/Model.swift:85-97 | the store becomes `RemoveCategory`: keys above the removed one drop by one, and the category and its events (the cascade) leave the store; validity is kept |
| ReminderModel.DropCategoryKeys | ios_project/Chroniton/Chroniton/model/Model.swift:89-94 | each fetched category's key goes down by one when above k and is kept otherwise |
| ReminderModel.Model.DropCategories | ios_project/Chroniton/Chroniton/model/Model.swift:87-94 | the fetch-and-drop loop lowers the keys above k and changes nothing else |
| ReminderModel.Model.DeleteCategoryRecord | ios_project/Chroniton/Chroniton/model/Model.swift:95 | the category, its events and their keys and links leave the store; nothing else changes |
| Store.RemoveCategoryConsistent | ios_project/Chroniton/Chroniton/model/Model.swift:85-97 | the remaining categories are the old order with the removed one cut out, and the store stays consistent |
| Store.RemoveCategory | ios_project/Chroniton/Chroniton/model/Model.swift:85-97 | the store after `deleteCategory`, cascade included; stated by `Store.RemoveCategoryConsistent` and `Store.RemoveCategoryOrder` |
| Store.RemoveCategoryOrder | ios_project/Chroniton/Chroniton/model/Model.swift:87-95 | the remaining order is the old order cut at the removed key, and the keys stay dense |
| ReminderModel.Model.MoveCategory | ios_project/Chroniton/Chroniton/model/Model.swift:102-122 | for 0 <= target < n, the store becomes `MoveCategory`: filter out, insert at the target, renumber 0 .. n-1; the model stays valid and no record is added or removed (on a valid model only; gapped stores are listed under Left out) |
| ReminderModel.RenumberCategoryKeys | ios_project/Chroniton/Chroniton/model/Model.swift:111-113 | after the loop, the category at position i has key i |
| ReminderModel.Model.RepositionCategory | ios_project/Chroniton/Chroniton/model/Model.swift:108-113 | the filter, insert and renumber steps give `MoveCategory` of the store |
| ReminderModel.Model.ReorderCategories | ios_project/Chroniton/Chroniton/model/Model.swift:111-113 | renumbering makes the revised list the category order with the keys it ranks |
| Store.MoveCategoryConsistent | ios_project/Chroniton/Chroniton/model/Model.swift:102-113 | after the move the store is consistent, the category sits at the target with that key, and the others keep their relative order |
| Store.MoveCategory | ios_project/Chroniton/Chroniton/model/Model.swift:102-122 | the store after `moveCategory`; stated by `Store.MoveCategoryConsistent` |
| ReminderModel.Model.CreateNewEvent | ios_project/Chroniton/Chroniton/model/Model.swift:127-154 | the new event belongs to the category at `index ?? count` (the corrected default): existing keys at or above it move up and it takes that key; other categories are untouched; validity is kept iff 0 <= index <= count |
| ReminderModel.Model.CreateNewEventAsWritten | ios_project/Chroniton/Chroniton/model/Model.swift:134-150 | as written: the default index is the count taken after the new event is attached, one more than the existing events |
| ReminderModel.Model.AttachNewEvent | ios_project/Chroniton/Chroniton/model/Model.swift:134-135 | a fresh titled event with key -1 joins the category on both sides of the relationship |
| ReminderModel.Model.PlaceNewEvent | ios_project/Chroniton/Chroniton/model/Model.swift:138-150 | the category's keys at or above k move up, including the new event's -1 when k <= -1, then the new event takes k |
| ReminderModel.BumpEventKeys | ios_project/Chroniton/Chroniton/model/Model.swift:142-147 | each listed event's key goes up by one when at or above k and is kept otherwise |
| ReminderModel.Model.BumpEvents | ios_project/Chroniton/Chroniton/model/Model.swift:142-147 | the bump loop raises the category's event keys at or above k and changes nothing else |
| Store.AddEventInSteps | ios_project/Chroniton/Chroniton/model/Model.swift:134-150 | attaching the event with key -1, then bumping and placing it, is the single step `AddEvent` |
| Store.AddEventConsistent | ios_project/Chroniton/Chroniton/model/Model.swift:127-154 | adding an event keeps the store consistent exactly when its position is one of 0 .. m |
| Store.AddEvent | ios_project/Chroniton/Chroniton/model/Model.swift:127-154 | the store after `createNewEvent` at a given position; stated by `Store.AddEventConsistent`, `Store.AddEventOwnOrder` and `Store.AddEventOtherOrders` |
| Store.AddEventOwnOrder | ios_project/Chroniton/Chroniton/model/Model.swift:138-150 | the category's event keys stay dense exactly when the position is one of 0 .. m |
| Store.NewEventDefaultAsWrittenLeavesGap | ios_project/Chroniton/Chroniton/model/Model.swift:135-140 | as written, a new event with no index gets key m + 1 and the store is no longer consistent |
| Store.NewEventDefaultAppends | ios_project/Chroniton/Chroniton/model/Model.swift:140 | with the corrected default, a new event is appended after the existing ones and the store stays consistent |
| Store.AddEventOtherOrders | ios_project/Chroniton/Chroniton/model/Model.swift:142-147 | the event lists of every other category are untouched |
| ReminderModel.Model.CreateNewEventWithFields | ios_project/Chroniton/Chroniton/model/Model.swift:158-171 | the same as `CreateNewEvent`, and the event then carries exactly the given notes, last date and next date |
| ReminderModel.Model.FillEventFields | ios_project/Chroniton/Chroniton/model/Model.swift:167-169 | exactly the notes and the two dates are set |
| ReminderModel.Model.DeleteEvent | ios_project/Chroniton/Chroniton/model/Model.swift:176-186 | the store becomes `RemoveEvent`: the event leaves its category and the store, and the rest of that category is renumbered 0 .. m-2 in its previous order; validity is kept |
| ReminderModel.Model.UnfileEvent | ios_project/Chroniton/Chroniton/model/Model.swift:178-180 | the event leaves its category's event set and the store; everything else is kept |
| ReminderModel.RenumberEventKeys | ios_project/Chroniton/Chroniton/model/Model.swift:182-184 | after the loop, the event at position i has key i |
| ReminderModel.Model.RenumberEvents | ios_project/Chroniton/Chroniton/model/Model.swift:181-184 | renumbering gives the listed events the keys their positions rank; other keys are kept |
| Store.RemoveEventConsistent | ios_project/Chroniton/Chroniton/model/Model.swift:176-186 | after the delete the store is consistent, and the category's list is its old list without the event, one shorter |
| Store.RemoveEvent | ios_project/Chroniton/Chroniton/model/Model.swift:176-186 | the store after `deleteEvent`; stated by `Store.RemoveEventConsistent`, `Store.RemoveEventOwnOrder` and `Store.RemoveEventOtherOrders` |
| Store.RemoveEventOwnOrder | ios_project/Chroniton/Chroniton/model/Model.swift:178-184 | the category's list becomes its old list without the event, one shorter, and stays ranked |
| Store.RemoveEventOtherOrders | ios_project/Chroniton/Chroniton/model/Model.swift:176-186 | the event lists of every other category are untouched |
| ReminderModel.Model.MoveEvent | ios_project/Chroniton/Chroniton/model/Model.swift:196-213 | for 0 <= index < m, the store becomes `MoveEvent`: filter out, insert, renumber 0 .. m-1 within the event's own category; validity is kept |
| ReminderModel.Model.SetEventList | ios_project/Chroniton/Chroniton/model/Model.swift:207 | the category's event set becomes the elements of the list, and its order becomes the list |
| Store.MoveEventConsistent | ios_project/Chroniton/Chroniton/model/Model.swift:196-207 | the moved event sits at the target with that key, the others keep their relative order, the event sets are unchanged, and the store is consistent |
| Store.MoveEvent | ios_project/Chroniton/Chroniton/model/Model.swift:196-213 | the store after `moveEvent(toNewIndex:)`; stated by `Store.MoveEventConsistent` and `Store.MoveEventOtherOrders` |
| Store.MoveEventOwnOrder | ios_project/Chroniton/Chroniton/model/Model.swift:204-207 | the event lands at the target with that key, the others keep their order, and the event sets are unchanged |
| Store.MoveEventOtherOrders | ios_project/Chroniton/Chroniton/model/Model.swift:196-207 | the event lists of every other category are untouched |
| ReminderModel.Model.MoveEventToCategory | ios_project/Chroniton/Chroniton/model/Model.swift:217-251 | the same category degrades to a move to `atIndex ?? 0`; otherwise a transfer to position `atIndex ?? 0` of the destination; validity is kept and no record is added or removed |
| ReminderModel.Model.TransferToCategory | ios_project/Chroniton/Chroniton/model/Model.swift:225-245 | the store becomes `TransferEvent`: inserted and renumbered in the destination, the source renumbered |
| ReminderModel.Model.InsertIntoCategory | ios_project/Chroniton/Chroniton/model/Model.swift:228-235 | the destination list with the event inserted is renumbered and assigned; this re-parents the event explicitly |
| ReminderModel.Model.AdoptEvent | ios_project/Chroniton/Chroniton/model/Model.swift:235 | assigning the destination's events moves the event out of its old category and points it at the new one |
| ReminderModel.Model.ReplaceRemainder | ios_project/Chroniton/Chroniton/model/Model.swift:241-245 | the source category's remaining events are renumbered 0 .. m-2 and reassigned |
| Store.TransferInSteps | ios_project/Chroniton/Chroniton/model/Model.swift:228-245 | the destination step followed by the source step is the single transfer |
| Store.TransferEventConsistent | ios_project/Chroniton/Chroniton/model/Model.swift:225-245 | after a transfer, the event belongs to the destination at the target with that key, the destination is the old list with it inserted, the source is the old list without it, and the store is consistent |
| Store.TransferEvent | ios_project/Chroniton/Chroniton/model/Model.swift:225-245 | the store after a move to another category; stated by `Store.TransferEventConsistent`, `Store.TransferEventSets` and `Store.TransferEventOtherOrders` |
| Store.TransferEventSets | ios_project/Chroniton/Chroniton/model/Model.swift:225-245 | the event leaves the source set and joins the destination set; no other set changes |
| Store.TransferEventDestOrder | ios_project/Chroniton/Chroniton/model/Model.swift:228-235 | the destination lists the event at the target with that key, with the old list around it |
| Store.TransferEventSourceOrder | ios_project/Chroniton/Chroniton/model/Model.swift:241-245 | the source lists its old list without the event, renumbered |
| Store.TransferEventOtherOrders | ios_project/Chroniton/Chroniton/model/Model.swift:225-245 | the event lists of every category other than the two involved are untouched |
| Store.MoveEventToCategoryConsistent | ios_project/Chroniton/Chroniton/model/Model.swift:217-251 | in both branches the event ends in the destination at `atIndex ?? 0`, and the store stays consistent |
| Store.MoveEventToCategory | ios_project/Chroniton/Chroniton/model/Model.swift:217-251 | the store after `moveEvent(toNewCategory:atIndex:)`, either branch; stated by `Store.MoveEventToCategoryConsistent` |
| ReminderModel.Model.FirstEvent | ios_project/Chroniton/Chroniton/model/Model.swift:316-324 | the result is the key-0 event of the first category, in category order, that has events; nil exactly when no event is stored (on a valid model only; gapped stores are listed under Left out) |
| ReminderModel.Model.FirstListed | ios_project/Chroniton/Chroniton/model/Model.swift:317-323 | the loop with an early return computes the head of the first non-empty event list (on a valid model only; gapped stores are listed under Left out) |
| Store.FirstEventInAt | ios_project/Chroniton/Chroniton/model/Model.swift:316-324 | the result is nil iff every list is empty; otherwise it is the head of the first non-empty list |
| Store.FirstEventIn | ios_project/Chroniton/Chroniton/model/Model.swift:316-324 | the first event of the first non-empty list; stated by `Store.FirstEventInAt` and `Store.FirstEventOfStore` |
| Store.FirstEventOfStore | ios_project/Chroniton/Chroniton/model/Model.swift:316-324 | in a consistent store, the first event is stored, has key 0, and every category before its own has no events |
| ReminderModel.Model.CountDueEvents | ios_project/Chroniton/Chroniton/model/Model.swift:330-340 | the count is the number of stored events that are due within numDays, each counted once, so at most the number of events (on a valid model only; gapped stores are listed under Left out) |
| ReminderModel.DueAmong | ios_project/Chroniton/Chroniton/model/Model.swift:330-340 | the stored events that are due; `CountDueEvents` is proved to return its size |
| ReminderModel.Model.CountDueUnder | ios_project/Chroniton/Chroniton/model/Model.swift:332-338 | the outer loop sums the due events each category lists (on a valid model only; gapped stores are listed under Left out) |
| ReminderModel.CountDueIn | ios_project/Chroniton/Chroniton/model/Model.swift:333-337 | the inner loop counts the due events of one list, at most its length |
| ReminderModel.Model.CountDueOf | ios_project/Chroniton/Chroniton/model/Model.swift:333-337 | one category's count is the number of its listed events that are due (on a valid model only; gapped stores are listed under Left out) |
| Store.ListedInStep | ios_project/Chroniton/Chroniton/model/Model.swift:333-337 | each loop step adds one exactly when the next event is due |
| Store.FiledBelowStep | ios_project/Chroniton/Chroniton/model/Model.swift:332-338 | each outer step adds the count of the next category's due events |
| Store.FiledUnderAll | ios_project/Chroniton/Chroniton/model/Model.swift:330-340 | walking every category's list visits exactly the stored events |
| ReminderModel.Model.BuildPath | ios_project/Chroniton/Chroniton/model/Model.swift:343-356 | a stored event's path is (its key, its category's key); an event not in the store gets (-1, -1) (on a valid model only; gapped stores are listed under Left out) |
| ReminderModel.FirstIndex | ios_project/Chroniton/Chroniton/model/Model.swift:346-347 | the position of the first occurrence, or none exactly when absent |
| App.AppState.constructor | ios_project/Chroniton/Chroniton/controller/AppState.swift:24-33 | the selection is the given one; with no model given, the model is fresh, valid and empty |
| App.AppState.SetNewModel | ios_project/Chroniton/Chroniton/controller/AppState.swift:38-40 | the model is replaced and the selection kept |
| App.AppState.SetSelectedEvent | ios_project/Chroniton/Chroniton/controller/AppState.swift:44-46 | exactly the selection changes; the model is untouched |
| App.AppState.BadgeCount | ios_project/Chroniton/Chroniton/controller/AppState.swift:48-50 | the badge is the number of the model's events due within the given days |
| App.AppController.Startup | ios_project/Chroniton/Chroniton/controller/AppController.swift:107-118 | the state gets a fresh, valid model, empty because persistence is not modelled (see Left out); the selection is kept |
| App.AppController.constructor | ios_project/Chroniton/Chroniton/controller/AppController.swift:121-123 | the controller works on the given app state |
| App.AppController.DoEventListAction | ios_project/Chroniton/Chroniton/controller/AppController.swift:20-36 | the store and selection become `EventListOutcome`: select, create at the corrected default end position (see Findings), delete with deselect, or reorder through `moveEvent(toNewIndex:)` |
| App.EventListOutcomeCases | ios_project/Chroniton/Chroniton/controller/AppController.swift:20-36 | unfolds `EventListOutcome` case by case, adding that a deleted or reordered event is filed and that the reorder index is in its list's range; the independent property is `App.EventListKeepsSelectionLive` |
| App.EventListOutcome | ios_project/Chroniton/Chroniton/controller/AppController.swift:20-36 | what an event-list command does to the store and selection; stated by `App.EventListKeepsSelectionLive`, and `DoEventListAction` is proved to reach it |
| App.EventListKeepsSelectionLive | ios_project/Chroniton/Chroniton/controller/AppController.swift:180-186 | after every event-list command other than select, a live selection stays on a stored event or none |
| App.AppController.DoDetailViewAction | ios_project/Chroniton/Chroniton/controller/AppController.swift:46-58 | the store and selection become `DetailViewOutcome`: move to index 0 of the new category, delete then select the first event, or publish (no change) |
| App.DetailViewOutcomeCases | ios_project/Chroniton/Chroniton/controller/AppController.swift:46-58 | unfolds `DetailViewOutcome` case by case, adding that a moved or deleted event is filed; the independent property is `App.DetailViewKeepsSelectionLive` |
| App.DetailViewOutcome | ios_project/Chroniton/Chroniton/controller/AppController.swift:46-58 | what a detail-view command does; stated by `App.DetailViewKeepsSelectionLive`, and `DoDetailViewAction` is proved to reach it |
| App.DetailViewKeepsSelectionLive | ios_project/Chroniton/Chroniton/controller/AppController.swift:196-205 | after a detail-view command the selection is a stored event or none; after a delete it is none exactly when no event is left, and never the deleted one |
| App.AppController.DoCategoryListAction | ios_project/Chroniton/Chroniton/controller/AppController.swift:69-83 | the store and selection become `CategoryListOutcome`: rename (name only), delete, reorder through `moveCategory`, or add with the default index, which appends |
| App.CategoryListOutcomeCases | ios_project/Chroniton/Chroniton/controller/AppController.swift:69-83 | unfolds `CategoryListOutcome` case by case, adding the bound on the reorder index; the independent property is `App.CategoryListKeepsSelectionLive` |
| App.CategoryListOutcome | ios_project/Chroniton/Chroniton/controller/AppController.swift:69-83 | what a category-list command does; stated by `App.CategoryListKeepsSelectionLive`, and `DoCategoryListAction` is proved to reach it |
| App.CategoryListKeepsSelectionLive | ios_project/Chroniton/Chroniton/controller/AppController.swift:219-242 | after every category-list command, a live selection stays on a stored event or none |
| App.AppController.SelectFirstEvent | ios_project/Chroniton/Chroniton/controller/AppController.swift:148-157 | the selection becomes `firstEvent()`, which is nil exactly when the model has no events; the model is untouched |
| App.AppController.SelectEvent | ios_project/Chroniton/Chroniton/controller/AppController.swift:160-164 | the selection becomes the given event; the model is untouched |
| App.AppController.AddNewEvent | ios_project/Chroniton/Chroniton/controller/AppController.swift:174-178 | a fresh "New Event" is created at the requested index, or at the end when none is given (the corrected default; see Findings); the selection is kept |
| App.AppController.DeleteEventViaEventListView | ios_project/Chroniton/Chroniton/controller/AppController.swift:180-186 | the event is deleted; the selection is cleared iff it was the deleted event and is otherwise unchanged |
| App.AppController.DeselectIfSelected | ios_project/Chroniton/Chroniton/controller/AppController.swift:182-185 | the selection is cleared iff it is the given event |
| App.AppController.DeleteEventFromModel | ios_project/Chroniton/Chroniton/controller/AppController.swift:181 | the store becomes `RemoveEvent` and the selection is not touched |
| App.LiveAfterRemoval | ios_project/Chroniton/Chroniton/controller/AppController.swift:180-186 | clearing a selection that was the removed event keeps a live selection live |
| App.AppController.ReorderEvent | ios_project/Chroniton/Chroniton/controller/AppController.swift:33-34 | `.reorderEvent` is `moveEvent(toNewIndex:)`; the selection is kept |
| App.AppController.ChangeCategoryForEvent | ios_project/Chroniton/Chroniton/controller/AppController.swift:196-198 | the move uses no index, so the event lands at index 0 of the new category; the selection is kept |
| App.AppController.DeleteEventViaEventDetailView | ios_project/Chroniton/Chroniton/controller/AppController.swift:200-205 | after the delete, the selection is `firstEvent()` of the new store, never the deleted event |
| App.AppController.DeleteCategory | ios_project/Chroniton/Chroniton/controller/AppController.swift:219-242 | the category is deleted; a selection inside it becomes `firstEvent()` afterwards, and any other selection is unchanged |
| App.AppController.SelectionIn | ios_project/Chroniton/Chroniton/controller/AppController.swift:223-230 | the flag is set iff there is a selection and it is one of the category's events |
| App.AppController.DeleteCategoryFromModel | ios_project/Chroniton/Chroniton/controller/AppController.swift:233 | the store becomes `RemoveCategory`, which removes the category's events |
| App.AppController.ReorderCategory | ios_project/Chroniton/Chroniton/controller/AppController.swift:77-78 | `.reorderCategory` is `moveCategory`; the selection is kept |
| App.AppController.AddCategory | ios_project/Chroniton/Chroniton/controller/AppController.swift:80-81 | `.addCategory` appends a fresh category with the name at position n; the selection is kept |
| App.AppController.RenameCategory | ios_project/Chroniton/Chroniton/controller/AppController.swift:247-251 | only the name changes; the category's key and events stay |
| DataGenerator.CreateRecordsFromJsonData | ios_project/Chroniton/Chroniton/model/DataGenerator.swift:46-115 | the categories the data describes are appended after the existing ones, in file order, each with its events in file order (events placed with the corrected default; see Findings); existing categories keep their events; validity is kept |
| DataGenerator.AddGroup | ios_project/Chroniton/Chroniton/model/DataGenerator.swift:52-111 | one group appends its category and events when the name is non-blank, and nothing otherwise |
| DataGenerator.AddNamedGroupAfter | ios_project/Chroniton/Chroniton/model/DataGenerator.swift:58-107 | a named group extends the categories built so far by its record |
| DataGenerator.AddNamedGroup | ios_project/Chroniton/Chroniton/model/DataGenerator.swift:61-106 | a named group adds one fresh category at the end, carrying its events; the existing lists are kept |
| DataGenerator.AppendCategory | ios_project/Chroniton/Chroniton/model/DataGenerator.swift:61 | `createNewCategory` with the default index appends the category, with no events |
| DataGenerator.FillCategory | ios_project/Chroniton/Chroniton/model/DataGenerator.swift:63-106 | the new category ends up carrying the group's events, or none without an event list |
| DataGenerator.FillFromList | ios_project/Chroniton/Chroniton/model/DataGenerator.swift:64-101 | the fresh category's list becomes the events the group's array describes; no other list changes |
| DataGenerator.FillEvents | ios_project/Chroniton/Chroniton/model/DataGenerator.swift:67-101 | the event loop keeps the filling invariant and ends having added exactly the described events |
| DataGenerator.AddFound | ios_project/Chroniton/Chroniton/model/DataGenerator.swift:79-92 | a block with a title adds one event, extending the described records by one |
| DataGenerator.AddEvents | ios_project/Chroniton/Chroniton/model/DataGenerator.swift:67-101 | the category's events become exactly the events the blocks describe, in order, and the model stays valid |
| DataGenerator.AddBlock | ios_project/Chroniton/Chroniton/model/DataGenerator.swift:70-100 | a block that describes an event appends it; any other block is skipped |
| DataGenerator.AppendEvent | ios_project/Chroniton/Chroniton/model/DataGenerator.swift:87-91 | the new event carries the block's fields and is added after the category's current events (the corrected default; see Findings) |
| DataGenerator.DictionariesExact | ios_project/Chroniton/Chroniton/model/DataGenerator.swift:49 | the list cast succeeds iff every element is a dictionary, and then keeps each one in place |
| DataGenerator.MalformedDataDescribesNothing | ios_project/Chroniton/Chroniton/model/DataGenerator.swift:49 | data that is not an array of dictionaries describes no category |
| DataGenerator.Dictionaries | ios_project/Chroniton/Chroniton/model/DataGenerator.swift:49 | the element-wise dictionary cast; stated by `DictionariesExact` |
| DataGenerator.AsDictionaryList | ios_project/Chroniton/Chroniton/model/DataGenerator.swift:49 | the `[[String: Any]]` cast of the whole file; stated by `DictionariesExact` and `MalformedDataDescribesNothing` |
| DataGenerator.AsStringDictionary | ios_project/Chroniton/Chroniton/model/DataGenerator.swift:54 | the `[String: String]` cast of the category block, which fails when any value is not a string |
| DataGenerator.CategoryName | ios_project/Chroniton/Chroniton/model/DataGenerator.swift:53-56 | the category name, present only when the block casts and has a "name"; `CategoryRecordsKeepAll` and `KeptNames` state how it decides what is kept |
| DataGenerator.EventList | ios_project/Chroniton/Chroniton/model/DataGenerator.swift:64 | the `[Any]` cast of "events"; `GroupWithoutEvents` and `NamedGroupRecord` state both outcomes |
| DataGenerator.StringField | ios_project/Chroniton/Chroniton/model/DataGenerator.swift:73-74 | a string field, "" when missing or not a string; stated by `EventOfExact` |
| DataGenerator.IntField | ios_project/Chroniton/Chroniton/model/DataGenerator.swift:75-76 | an integer field, none when missing or not a number; stated by `EventOfExact` |
| DataGenerator.RecordsFromJson | ios_project/Chroniton/Chroniton/model/DataGenerator.swift:46-115 | the categories a data file describes; `CreateRecordsFromJsonData` is proved to append exactly these |
| DataGenerator.GroupRecord | ios_project/Chroniton/Chroniton/model/DataGenerator.swift:53-106 | the category one group describes; stated by `GroupWithoutEvents`, `NamedGroupRecord` and `CategoryRecordsStep` |
| DataGenerator.EventOf | ios_project/Chroniton/Chroniton/model/DataGenerator.swift:70-92 | the event one block describes; stated by `EventOfExact` |
| DataGenerator.NowOffsetByDays | ios_project/Chroniton/Chroniton/model/DataGenerator.swift:121-125 | the offset date; stated by `NowOffsetRoundTrip` and `NowOffsetMonotone` |
| DataGenerator.CategoryRecords | ios_project/Chroniton/Chroniton/model/DataGenerator.swift:52-113 | at most one category per group, each with a non-blank name, whose events all have non-blank titles |
| DataGenerator.CategoryRecordsKeepAll | ios_project/Chroniton/Chroniton/model/DataGenerator.swift:53-61 | no group is dropped iff every group has a non-blank category name, and then the i-th category has the i-th group's name |
| DataGenerator.KeptExactlyWhenNamed | ios_project/Chroniton/Chroniton/model/DataGenerator.swift:53-58 | one category per group iff every group is named |
| DataGenerator.AllNamedKept | ios_project/Chroniton/Chroniton/model/DataGenerator.swift:58-61 | when every group is named, every group gives a category |
| DataGenerator.UnnamedDropped | ios_project/Chroniton/Chroniton/model/DataGenerator.swift:108-111 | a group without a usable name gives no category, so there are fewer categories than groups |
| DataGenerator.KeptNames | ios_project/Chroniton/Chroniton/model/DataGenerator.swift:55-61 | when every group gives a category, the i-th category carries the i-th group's name |
| DataGenerator.CategoryRecordsAppend | ios_project/Chroniton/Chroniton/model/DataGenerator.swift:52-113 | groups are read independently: two runs of groups give the categories of the first, then those of the second |
| DataGenerator.CategoryRecordsStep | ios_project/Chroniton/Chroniton/model/DataGenerator.swift:52-113 | one more group adds the category that group describes, if any |
| DataGenerator.CountStep | ios_project/Chroniton/Chroniton/model/DataGenerator.swift:53-61 | one more group adds one category exactly when it is named |
| DataGenerator.GroupWithoutEvents | ios_project/Chroniton/Chroniton/model/DataGenerator.swift:102-106 | a named group with no event array gives its category with no events |
| DataGenerator.NamedGroupRecord | ios_project/Chroniton/Chroniton/model/DataGenerator.swift:58-64 | a named group with an event array gives its category with the events of that array |
| DataGenerator.EventRecords | ios_project/Chroniton/Chroniton/model/DataGenerator.swift:67-101 | at most one event per block, each with a non-blank title |
| DataGenerator.EventOfExact | ios_project/Chroniton/Chroniton/model/DataGenerator.swift:70-92 | a block gives an event iff it is a dictionary with a non-blank string title; missing notes become "", and there is a date for each whole-number offset present |
| DataGenerator.EventRecordsKeepAll | ios_project/Chroniton/Chroniton/model/DataGenerator.swift:67-101 | no block is dropped iff every block describes an event, and then the events are those of the blocks, position by position |
| DataGenerator.EventRecordsAppend | ios_project/Chroniton/Chroniton/model/DataGenerator.swift:67-101 | blocks are read independently: two runs of blocks give the events of the first, then those of the second |
| DataGenerator.EventRecordsStep | ios_project/Chroniton/Chroniton/model/DataGenerator.swift:67-101 | one more block adds the event that block describes, if any |
| DataGenerator.AppendedLast | ios_project/Chroniton/Chroniton/model/DataGenerator.swift:87-91 | appending events one at a time with the default index is appending the whole list |
| DataGenerator.AppendedEventsConsistent | ios_project/Chroniton/Chroniton/model/DataGenerator.swift:67-101 | appending distinct new events to a category keeps the store consistent |
| DataGenerator.NowOffsetRoundTrip | ios_project/Chroniton/Chroniton/model/DataGenerator.swift:121-125 | no offset gives no date; otherwise the date is exactly the offset in whole days from now, also when negative |
| DataGenerator.NowOffsetMonotone | ios_project/Chroniton/Chroniton/model/DataGenerator.swift:121-125 | a larger offset gives a later date |
| DateStrings.NormalizeIsRenderedDate | ios_project/Chroniton/Chroniton/view/helpers/DateStrHelper.swift:13-38 | normalizing renders the date the string denotes: "" for nil or an unparsable string, `format(parse(s))` otherwise |
| DateStrings.ToString | ios_project/Chroniton/Chroniton/view/helpers/DateStrHelper.swift:13-18 | the short-format rendering, "" for no date; `NormalizeIsRenderedDate` relates it to normalizing |
| DateStrings.ToDate | ios_project/Chroniton/Chroniton/view/helpers/DateStrHelper.swift:21-26 | the date a string denotes, none for no string; `ValidExactlyWhenDate` relates it to validity |
| DateStrings.NormalizeDateStr | ios_project/Chroniton/Chroniton/view/helpers/DateStrHelper.swift:30-38 | the normalized string; stated by `NormalizeIsRenderedDate` and `NormalizeIdempotent` |
| DateStrings.IsValidDate | ios_project/Chroniton/Chroniton/view/helpers/DateStrHelper.swift:43-59 | the validity test with `allowBlank`; stated by `ValidExactlyWhenDate` |
| DateStrings.ValidExactlyWhenDate | ios_project/Chroniton/Chroniton/view/helpers/DateStrHelper.swift:43-59 | without blanks allowed, valid iff the string parses; with blanks allowed, also for nil and "" |
| DateStrings.NormalizeIdempotent | ios_project/Chroniton/Chroniton/view/helpers/DateStrHelper.swift:30-38 | when every rendered date parses back to a date with the same rendering (the short format drops the time of day), normalizing twice equals normalizing once, and the result is valid |
| DateStrings.RelativeIntervalFaithful | ios_project/Chroniton/Chroniton/view/helpers/DateStrHelper.swift:68-104 | blank iff a date is missing; otherwise the phrase gives back the day interval (0 today, 1 yesterday, -1 tomorrow), and any printed count is at least 2 |
| DateStrings.RelativeIntervalInjective | ios_project/Chroniton/Chroniton/view/helpers/DateStrHelper.swift:68-104 | two date pairs get the same phrase iff their day intervals are equal |
| DateStrings.RelativeInterval | ios_project/Chroniton/Chroniton/view/helpers/DateStrHelper.swift:68-104 | the phrase chosen before localization; stated by `RelativeIntervalFaithful` and `RelativeIntervalInjective` |
| DateStrings.DateOrTodayFallback | ios_project/Chroniton/Chroniton/view/helpers/DateStrHelper.swift:130-134 | a string that parses gives its date; nil or an unparsable string gives today |
| DateStrings.StepsShiftFallback | ios_project/Chroniton/Chroniton/view/helpers/DateStrHelper.swift:110-134 | the week, month, n-month and year steps shift the fallback date, an invalid string acts as no string, and `monthPlus` is `monthPlus(_:times: 1)` |
| DateStrings.DateOrToday | ios_project/Chroniton/Chroniton/view/helpers/DateStrHelper.swift:130-134 | the parsed date or today; stated by `DateOrTodayFallback` |
| DateStrings.WeekPlus | ios_project/Chroniton/Chroniton/view/helpers/DateStrHelper.swift:110-113 | one week after the fallback date, rendered; stated by `StepsShiftFallback` |
| DateStrings.MonthPlus | ios_project/Chroniton/Chroniton/view/helpers/DateStrHelper.swift:115-118 | one month after the fallback date, rendered; stated by `StepsShiftFallback` |
| DateStrings.MonthPlusTimes | ios_project/Chroniton/Chroniton/view/helpers/DateStrHelper.swift:120-123 | num months after the fallback date, rendered; stated by `StepsShiftFallback` |
| DateStrings.YearPlus | ios_project/Chroniton/Chroniton/view/helpers/DateStrHelper.swift:125-128 | one year after the fallback date, rendered; stated by `StepsShiftFallback` |
| DateStrings.DefaultsAreNormal | ios_project/Chroniton/Chroniton/view/helpers/DateStrHelper.swift:139-145 | when rendered dates read back that way, today's string is a valid date that renders as today does (the same day, not the same instant) and is already normal; the none string is valid only with blanks allowed |
| DateStrings.TodayString | ios_project/Chroniton/Chroniton/view/helpers/DateStrHelper.swift:139-141 | today's date rendered; stated by `DefaultsAreNormal` |
| DateStrings.NoneString | ios_project/Chroniton/Chroniton/view/helpers/DateStrHelper.swift:143-145 | the blank string; stated by `DefaultsAreNormal` |

## Left out

- Persistence: fetch requests, `saveContext`, `allEvents`, the test-only
  bulk deletes and the Core Data cascade rule. The store is the model's own
  sets, and the cascade on `deleteCategory` is written out explicitly.
- Int64 width of `orderIndex`: keys are unbounded integers. The counts
  involved are far from 2^63, so no wrap-around is modelled.
- Sort ties: `orderedEvents()` sorts with the comparator `<=`. The model
  returns some sorted listing. On ties the two may differ, but a valid
  model has no ties.
- Clock and calendar: `Date()`, `endOfDayInLocalTimezone`, `addDays`,
  `addWeeks`, `addMonths`, `addYears`, `dayInterval`, and the short-format
  parse and format are parameters.
  - Dates are whole seconds.
  - `addDays` adds 86400 seconds per day, so daylight-saving changes are
    not modelled.
  - `DataGenerator.CreateRecordsFromJsonData` reads one instant `now` for
    every offset. The source reads the clock once per date.
- Localization: `relativeIntervalString` returns a phrase datatype. The
  localized words and number formatting are left out.
- JSON bridging: numbers are whole numbers only. A Boolean read through
  `as? Int`, and fractional numbers, are not modelled. Reading the bundled
  file and logging malformed blocks are left out.
- UI side effects: view-model notifications, `showEvent`,
  `handleModelUpdated` and `handleRefreshCategoryInfo`.
  `publishEditedEvent` only saves, so the model treats it as no change.
- App.AppController.DoEventListAction: built on the corrected default
  position of `createNewEvent` (key m, appended). As written, the code gives
  key m + 1 (see Findings), so every event added with "+" leaves a gap. Its
  validity promise covers only a new-event index in 0 .. count.
- App.AppController.AddNewEvent: built on the corrected default position.
  As written, the new event gets key m + 1.
- DataGenerator.CreateRecordsFromJsonData: built on the corrected default
  position. As written, each generated category ends with keys 1 .. k, not
  0 .. k-1.
- DataGenerator.AddEvents: built on the corrected default position, like
  `CreateRecordsFromJsonData`.
- DataGenerator.AppendEvent: built on the corrected default position. As
  written, the event gets key m + 1.
- DataGenerator.AppendedLast: states appending with the corrected default.
  With the default as written, one-at-a-time appends would not give a
  consistent store.
- DataGenerator.AppendedEventsConsistent: holds for the corrected default
  only.
- ReminderModel.Model.DeleteEvent: requires `Valid()`. It therefore
  excludes the gapped categories that the app as written reaches. There, the
  renumbering loop of `deleteEvent` (Model.swift:181-184) closes the gap
  again, and the model does not show that.
- ReminderModel.Model.MoveEvent: requires `Valid()`, excluding gapped
  categories. There, the renumbering loop of `moveEvent` (Model.swift:204-206)
  closes the gap again, and the model does not show that.
- ReminderModel.Model.MoveEventToCategory: requires `Valid()`, excluding
  gapped categories, for the same reason as the two above.
- ReminderModel.Model.MoveCategory: requires `Valid()`, so stores with gapped
  event keys are excluded. `moveCategory` (Model.swift:102-113) reads and
  writes only category keys, and would work on them unchanged.
- ReminderModel.Model.FirstEvent: requires `Valid()`, so gapped stores are
  excluded. There, `firstEvent` (Model.swift:316-324) still returns the head
  of the first non-empty sorted list, but its key need not be 0; the
  "key 0" clause holds only under `Valid()`.
- ReminderModel.Model.FirstListed: requires `Valid()`, so gapped stores are
  excluded, as for `FirstEvent`.
- ReminderModel.Model.CountDueEvents: requires `Valid()`, so gapped stores
  are excluded. `countDueEvents` (Model.swift:330-340) counts the due events
  on any store whose links are consistent; dense keys are not needed.
- ReminderModel.Model.CountDueUnder: requires `Valid()`, so gapped stores
  are excluded, as for `CountDueEvents`.
- ReminderModel.Model.CountDueOf: requires `Valid()`, so gapped stores are
  excluded, as for `CountDueEvents`.
- ReminderModel.Model.BuildPath: requires `Valid()`, so gapped stores are
  excluded. There, `buildPath` (Model.swift:343-356) returns list positions,
  which differ from the keys the model's path uses.
- Export: email and CSV text.

## Findings

| source | as written | input that shows it | evidently intended | confidence | as-written member | corrected member |
|---|---|---|---|---|---|---|
| ios_project/Chroniton/Chroniton/model/Model.swift:135-140 | `event.category = category` runs before `orderedEvents()`, so with no index the default `events.count` already counts the new event and the new event gets key m + 1 | a category holding m events and `createNewEvent(title:in:)` with no index (used by the data generator and the "+" button): the keys become 0 .. m-1 and m+1, leaving a gap at m | append at m, after the existing events | not executed; depends on Core Data updating the inverse relationship at assignment, which the comment at Model.swift:222-223 says it does | ReminderModel.Model.CreateNewEventAsWritten, Store.NewEventDefaultAsWrittenLeavesGap | ReminderModel.Model.CreateNewEvent, Store.NewEventDefaultAppends |
