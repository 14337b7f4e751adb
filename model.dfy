/** The reminder model: the store of Category and Event records and the only
    operations allowed to add, remove or reorder them.

    Category order is kept in `Category.orderIndex`, Event order (within one
    Category) in `Event.orderIndex`. Views use these keys directly as table
    rows, so every operation must leave both orders dense: the keys of the n
    categories are 0 .. n-1, and so are the keys of the m events of each
    category.

    The class keeps a ghost copy `st` of the store as a value (module Store).
    `Coupled()` says that the records agree with it; each operation is proved
    to take `st` to the matching transition of module Store, whose lemmas show
    that the transition keeps the keys dense (`Consistent`). An operation is
    written as the source writes it, in steps: each step is a method of its
    own that keeps `Coupled()` and says what it does to `st`. */
module ReminderModel {
  import opened Optional
  import opened Ordering
  import opened Dates
  import opened Records
  import opened Store

  /** A table position: the row of an event within the section of its category. */
  datatype IndexPath = IndexPath(row: int, section: int)

  /** The position `buildPath` reports when the event cannot be placed. */
  const NoPath: IndexPath := IndexPath(-1, -1)

  /** The first position of `x` in `s`, or None when `x` does not occur
      (Swift's `firstIndex(where: { $0 == x })`). */
  function FirstIndex<T(==)>(s: seq<T>, x: T): (r: Option<nat>)
    ensures r.None? <==> x !in s
    ensures r.Some? ==> r.value < |s| && s[r.value] == x && x !in s[..r.value]
  {
    if s == [] then None
    else if s[0] == x then Some(0)
    else match FirstIndex(s[1..], x)
      case None => None
      case Some(i) => assert s[..i + 1] == [s[0]] + s[1..][..i]; Some(i + 1)
  }

  class Model {
    /** The Category records in the store. */
    var categories: set<Category>
    /** The Event records in the store. */
    var events: set<Event>

    /** The store read as a value: records, order keys, relationship, and the
        orders the ordered fetches return. */
    ghost var st: Store.Contents

    /** The records agree with `st`: the same records, and every key and
        relationship field holds what `st` records for it. */
    ghost predicate Coupled()
      reads this, categories`orderIndex, categories`events, events`orderIndex, events`category
    {
      && categories == st.categories && events == st.events
      && (forall c :: c in categories ==> c in st.catKey && c.orderIndex == st.catKey[c])
      && (forall c :: c in categories ==> c in st.catEvents && c.events == st.catEvents[c])
      && (forall c :: c in categories ==> c in st.eventOrder)
      && (forall e :: e in events ==> e in st.eventKey && e.orderIndex == st.eventKey[e])
      && (forall e :: e in events ==> e in st.eventCat && e.category == st.eventCat[e])
    }

    /** The model invariant: dense zero-based order keys for the categories and
        for the events of every category, over linked records. */
    ghost predicate Valid()
      reads this, categories`orderIndex, categories`events, events`orderIndex, events`category
    {
      Coupled() && Consistent(st)
    }

    /** An empty store. */
    constructor ()
      ensures Valid() && categories == {} && events == {}
    {
      categories, events := {}, {};
      st := Store.Contents({}, [], map[], map[], {}, map[], map[], map[]);
    }

    // -------------------------------------------------------------------------
    // Fetches
    // -------------------------------------------------------------------------

    /** `allCategories`: every category once, sorted by key; in a consistent
        store, the category order itself. */
    method AllCategories() returns (all: seq<Category>)
      ensures Lists(all, categories)
      ensures forall i, j :: 0 <= i < j < |all| ==> all[i].orderIndex <= all[j].orderIndex
      ensures Valid() ==> all == st.catOrder
    {
      var key := map c | c in categories :: c.orderIndex;
      all := SortByKey(categories, key);
      forall i | 0 <= i < |all| ensures all[i] in categories && key[all[i]] == all[i].orderIndex {
        assert all[i] in all;
      }
      if Valid() {
        assert SortedBy(all, st.catKey);
        RankedIsDistinct(st.catOrder, st.catKey);
        SortedMatchesRanked(all, st.catOrder, categories, st.catKey);
      }
    }

    /** `allCategories()` in a consistent store: the category order. */
    method CategoryOrder() returns (all: seq<Category>)
      requires Valid()
      ensures all == st.catOrder
    {
      all := AllCategories();
    }

    /** What `orderedEvents()` returns for a stored category whose events are
        stored, when `q` lists those events with strictly increasing keys:
        exactly `q`, since a sort cannot choose between distinct keys. */
    method FetchEvents(c: Category, ghost q: seq<Event>) returns (list: seq<Event>)
      requires Coupled() && c in categories && c.events <= events
      requires Lists(q, c.events) && StrictlySortedBy(q, st.eventKey)
      ensures list == q
    {
      list := c.OrderedEvents();
      assert SortedBy(list, st.eventKey) by {
        forall i | 0 <= i < |list| ensures list[i] in events {
          assert list[i] in list;
        }
      }
      SortedListingUnique(list, q, c.events, st.eventKey);
    }

    /** `orderedEvents()` of a stored category in a consistent store: the
        category's event order. */
    method OrderedEventsOf(c: Category) returns (list: seq<Event>)
      requires Valid() && c in categories
      ensures list == st.eventOrder[c]
    {
      RankedIsDistinct(st.eventOrder[c], st.eventKey);
      RankedIsStrictlySorted(st.eventOrder[c], st.eventKey);
      list := FetchEvents(c, st.eventOrder[c]);
    }

    // -------------------------------------------------------------------------
    // Categories
    // -------------------------------------------------------------------------

    /** `createNewCategory`: the categories at or above position `index`
        (default: one past the last) move up one slot and the new category
        takes it. */
    method CreateNewCategory(name: string, index: Option<int>) returns (category: Category)
      requires Coupled()
      modifies this, categories`orderIndex
      ensures Coupled() && fresh(category) && category.name == Some(name)
      ensures st == AddCategory(old(st), category, index.GetOr(old(|categories|)))
      ensures old(Valid()) ==> old(|categories|) == |old(st).catOrder|
      ensures old(Valid()) ==> (Valid() <==> 0 <= index.GetOr(old(|categories|)) <= old(|categories|))
    {
      var all := SortByKey(categories, map c | c in categories :: c.orderIndex);
      var atIndex := index.GetOr(|all|);
      BumpCategories(all, atIndex);
      category := AddCategoryRecord(name, atIndex);
      if old(Valid()) {
        RankedIsDistinct(old(st).catOrder, old(st).catKey);
        ListedCount(old(st).catOrder, old(st).categories);
        AddCategoryConsistent(old(st), category, atIndex);
      }
    }

    /** The loop of `createNewCategory` over the fetched categories: every key
        at or above `k` moves up one. */
    method BumpCategories(all: seq<Category>, k: int)
      requires Coupled() && Lists(all, categories)
      modifies this, categories`orderIndex
      ensures Coupled() && categories == old(categories) && events == old(events)
      ensures st == old(st).(catKey := BumpFrom(old(st).catKey, old(st).categories, k))
    {
      forall j | 0 <= j < |all| ensures all[j] in categories {
        assert all[j] in all;
      }
      BumpCategoryKeys(all, k);
      st := st.(catKey := BumpFrom(st.catKey, st.categories, k));
      forall c | c in categories ensures c.orderIndex == st.catKey[c] {
        var j :| 0 <= j < |all| && all[j] == c;
      }
    }

    /** The new category record, stored at key `k` with no events. */
    method AddCategoryRecord(name: string, k: int) returns (category: Category)
      requires Coupled()
      modifies this
      ensures Coupled() && fresh(category) && category.name == Some(name) && category !in old(categories)
      ensures st == old(st).(categories := old(st).categories + {category},
                             catOrder := InsertAt(old(st).catOrder, Clamp(k, |old(st).catOrder|), category),
                             catKey := old(st).catKey[category := k],
                             catEvents := old(st).catEvents[category := {}],
                             eventOrder := old(st).eventOrder[category := []])
    {
      category := new Category(name);
      category.orderIndex := k;
      categories := categories + {category};
      st := st.(categories := st.categories + {category},
                catOrder := InsertAt(st.catOrder, Clamp(k, |st.catOrder|), category),
                catKey := st.catKey[category := k],
                catEvents := st.catEvents[category := {}],
                eventOrder := st.eventOrder[category := []]);
    }

    /** `deleteCategory`: the categories above the removed one move down one
        slot, and the category is deleted with its events. */
    method DeleteCategory(category: Category)
      requires Coupled() && category in categories
      modifies this, categories`orderIndex
      ensures Coupled()
      ensures st == RemoveCategory(old(st), category)
      ensures old(Valid()) ==> Valid()
    {
      var indexRemoved := category.orderIndex;
      var all := SortByKey(categories, map c | c in categories :: c.orderIndex);
      DropCategories(all, indexRemoved);
      DeleteCategoryRecord(category);
      if old(Valid()) {
        RemoveCategoryConsistent(old(st), category);
      }
    }

    /** The loop of `deleteCategory`: every key above `k` moves down one. */
    method DropCategories(all: seq<Category>, k: int)
      requires Coupled() && Lists(all, categories)
      modifies this, categories`orderIndex
      ensures Coupled() && categories == old(categories) && events == old(events)
      ensures st == old(st).(catKey := DropAbove(old(st).catKey, k))
    {
      forall j | 0 <= j < |all| ensures all[j] in categories {
        assert all[j] in all;
      }
      DropCategoryKeys(all, k);
      st := st.(catKey := DropAbove(st.catKey, k));
      forall c | c in categories ensures c.orderIndex == st.catKey[c] {
        var j :| 0 <= j < |all| && all[j] == c;
      }
    }

    /** Deleting a category record deletes its events too (the cascade rule of
        the relationship). */
    method DeleteCategoryRecord(category: Category)
      requires Coupled() && category in categories
      modifies this
      ensures Coupled()
      ensures var gone := old(st).catEvents[category];
        st == old(st).(categories := old(st).categories - {category},
                       catOrder := Remove(old(st).catOrder, category),
                       catKey := old(st).catKey - {category},
                       catEvents := old(st).catEvents - {category},
                       events := old(st).events - gone,
                       eventOrder := old(st).eventOrder - {category},
                       eventKey := old(st).eventKey - gone,
                       eventCat := old(st).eventCat - gone)
    {
      var gone := category.events;
      categories := categories - {category};
      events := events - gone;
      st := st.(categories := st.categories - {category},
                catOrder := Remove(st.catOrder, category),
                catKey := st.catKey - {category},
                catEvents := st.catEvents - {category},
                events := st.events - gone,
                eventOrder := st.eventOrder - {category},
                eventKey := st.eventKey - gone,
                eventCat := st.eventCat - gone);
    }

    /** `moveCategory`: the category is filtered out of the fetched order,
        inserted at `targetIndex`, and every category is renumbered by its
        position. `Array.insert` traps unless `targetIndex` is at most the
        count of the other categories. */
    method MoveCategory(category: Category, targetIndex: int)
      requires Valid() && category in categories && 0 <= targetIndex < |categories|
      modifies this, categories`orderIndex
      ensures Valid()
      ensures targetIndex <= |Remove(old(st).catOrder, category)|
      ensures st == Store.MoveCategory(old(st), category, targetIndex)
      ensures categories == old(categories) && events == old(events)
    {
      RepositionCategory(category, targetIndex);
      MoveCategoryConsistent(old(st), category, targetIndex);
    }

    /** The steps of `moveCategory`: fetch, filter, insert, renumber. */
    method RepositionCategory(category: Category, targetIndex: int)
      requires Valid() && category in categories && 0 <= targetIndex < |categories|
      modifies this, categories`orderIndex
      ensures Coupled()
      ensures targetIndex <= |Remove(old(st).catOrder, category)|
      ensures st == Store.MoveCategory(old(st), category, targetIndex)
    {
      var all := AllCategories();
      assert all == st.catOrder;
      ListedCount(all, categories);
      MoveListing(all, categories, category, targetIndex);
      var revised := Remove(all, category);
      revised := InsertAt(revised, targetIndex, category);
      assert revised == MoveTo(st.catOrder, category, targetIndex);
      RenumberedRanks(st.catKey, revised);
      ReorderCategories(revised, Renumbered(st.catKey, revised));
    }

    /** The renumbering loop of `moveCategory`: the category order becomes
        `revised` and each category's key its position there. */
    method ReorderCategories(revised: seq<Category>, ghost key: map<Category, int>)
      requires Coupled() && Lists(revised, categories) && RankedBy(revised, key)
      modifies this, categories`orderIndex
      ensures Coupled() && categories == old(categories) && events == old(events)
      ensures st == old(st).(catOrder := revised, catKey := key)
    {
      RenumberCategoryKeys(revised, key);
      st := st.(catOrder := revised, catKey := key);
    }

    // -------------------------------------------------------------------------
    // Events
    // -------------------------------------------------------------------------

    /** `createNewEvent`, with the default position the events after the
        existing ones: the new event is attached to `category`, the events at
        or above the position move up one, and the new event takes it. The
        source computes the default from a count that already includes the new
        event; `CreateNewEventAsWritten` keeps that. */
    method CreateNewEvent(title: string, category: Category, index: Option<int>) returns (event: Event)
      requires Coupled() && category in categories
      modifies this, category`events, category.events`orderIndex
      ensures Coupled() && fresh(event) && event.category == category
      ensures event.title == Some(title) && event.notes.None? && event.lastDate.None? && event.nextDate.None?
      ensures st == AddEvent(old(st), event, category, index.GetOr(old(|category.events|)))
      ensures old(Valid()) ==> index.GetOr(old(|category.events|)) == NewEventIndex(old(st), category, index)
      ensures old(Valid()) ==> (Valid() <==> 0 <= index.GetOr(old(|category.events|)) <= old(|category.events|))
    {
      event := AttachNewEvent(title, category);
      var eventList := category.OrderedEvents();
      var atIndex := index.GetOr(|eventList| - 1);
      assert atIndex == index.GetOr(old(|category.events|));
      PlaceNewEvent(event, category, eventList, atIndex);
      AddEventInSteps(old(st), event, category, atIndex);
      if old(Valid()) {
        RankedIsDistinct(old(st).eventOrder[category], old(st).eventKey);
        ListedCount(old(st).eventOrder[category], old(st).catEvents[category]);
        AddEventConsistent(old(st), event, category, atIndex);
      }
    }

    /** `createNewEvent` as the source writes it: the default position is the
        count of `orderedEvents()` taken after the new event is attached, so
        the new event counts itself and lands one past the end. */
    method CreateNewEventAsWritten(title: string, category: Category, index: Option<int>) returns (event: Event)
      requires Coupled() && category in categories
      modifies this, category`events, category.events`orderIndex
      ensures Coupled() && fresh(event) && event.category == category
      ensures st == AddEvent(old(st), event, category, index.GetOr(old(|category.events|) + 1))
      ensures old(Valid()) ==> index.GetOr(old(|category.events|) + 1) == NewEventIndexAsWritten(old(st), category, index)
    {
      event := AttachNewEvent(title, category);
      var eventList := category.OrderedEvents();
      var atIndex := index.GetOr(|eventList|);
      assert atIndex == index.GetOr(old(|category.events|) + 1);
      PlaceNewEvent(event, category, eventList, atIndex);
      AddEventInSteps(old(st), event, category, atIndex);
      if old(Valid()) {
        RankedIsDistinct(old(st).eventOrder[category], old(st).eventKey);
        ListedCount(old(st).eventOrder[category], old(st).catEvents[category]);
      }
    }

    /** The convenience `createNewEvent`: the same, then the notes and the two
        dates are set. */
    method CreateNewEventWithFields(title: string, notes: Option<string>, lastDate: Option<Date>,
                                    nextDate: Option<Date>, category: Category, index: Option<int>)
      returns (event: Event)
      requires Coupled() && category in categories
      modifies this, category`events, category.events`orderIndex
      ensures Coupled() && fresh(event) && event.category == category
      ensures event.title == Some(title) && event.notes == notes
      ensures event.lastDate == lastDate && event.nextDate == nextDate
      ensures st == AddEvent(old(st), event, category, index.GetOr(old(|category.events|)))
      ensures old(Valid()) ==> index.GetOr(old(|category.events|)) == NewEventIndex(old(st), category, index)
      ensures old(Valid()) ==> (Valid() <==> 0 <= index.GetOr(old(|category.events|)) <= old(|category.events|))
    {
      event := CreateNewEvent(title, category, index);
      FillEventFields(event, notes, lastDate, nextDate);
    }

    /** The field assignments of the convenience `createNewEvent`: exactly the
        notes and the two dates change. */
    method FillEventFields(event: Event, notes: Option<string>, lastDate: Option<Date>, nextDate: Option<Date>)
      requires Coupled()
      modifies event`notes, event`lastDate, event`nextDate
      ensures Coupled()
      ensures event.notes == notes && event.lastDate == lastDate && event.nextDate == nextDate
    {
      event.lastDate := lastDate;
      event.nextDate := nextDate;
      event.notes := notes;
    }

    /** A new event record attached to `category`, not yet given a slot. */
    method AttachNewEvent(title: string, category: Category) returns (event: Event)
      requires Coupled() && category in categories
      modifies this, category`events
      ensures Coupled() && fresh(event) && event.category == category && event !in old(category.events)
      ensures categories == old(categories) && category.events == old(category.events) + {event}
      ensures |category.events| == old(|category.events|) + 1
      ensures event.title == Some(title) && event.notes.None? && event.lastDate.None? && event.nextDate.None?
      ensures st == AttachEvent(old(st), event, category)
    {
      event := new Event(title);
      event.category := category;
      category.events := category.events + {event};
      events := events + {event};
      st := st.(catEvents := st.catEvents[category := st.catEvents[category] + {event}],
                events := st.events + {event},
                eventKey := st.eventKey[event := UnassignedIndex],
                eventCat := st.eventCat[event := category]);
      forall e | e in events
        ensures e in st.eventKey && e.orderIndex == st.eventKey[e]
        ensures e in st.eventCat && e.category == st.eventCat[e]
      {
        if e != event {
          assert e in old(events);
        }
      }
    }

    /** The loop of `createNewEvent` and the new event's slot: the events of
        `category` at or above `k` move up one, then the new event takes `k`. */
    method PlaceNewEvent(event: Event, category: Category, eventList: seq<Event>, k: int)
      requires Coupled() && category in categories && event in events
      requires Lists(eventList, category.events)
      modifies this, category.events`orderIndex, event`orderIndex
      ensures Coupled() && categories == old(categories) && events == old(events)
      ensures event.title == old(event.title) && event.notes == old(event.notes)
      ensures event.lastDate == old(event.lastDate) && event.nextDate == old(event.nextDate)
      ensures event.category == old(event.category)
      ensures st == PlaceEvent(old(st), event, category, k)
    {
      BumpEvents(category, eventList, k);
      event.orderIndex := k;
      st := st.(eventOrder := st.eventOrder[category := InsertAt(st.eventOrder[category], Clamp(k, |st.eventOrder[category]|), event)],
                eventKey := st.eventKey[event := k]);
    }

    /** Every event of `category` whose key is at or above `k` moves up one. */
    method BumpEvents(category: Category, eventList: seq<Event>, k: int)
      requires Coupled() && category in categories && Lists(eventList, category.events)
      modifies this, category.events`orderIndex
      ensures Coupled() && categories == old(categories) && events == old(events)
      ensures st == old(st).(eventKey := BumpFrom(old(st).eventKey, old(st).catEvents[category], k))
    {
      forall j | 0 <= j < |eventList| ensures eventList[j] in category.events {
        assert eventList[j] in eventList;
      }
      BumpEventKeys(eventList, k);
      st := st.(eventKey := BumpFrom(st.eventKey, st.catEvents[category], k));
      forall e | e in events ensures e.orderIndex == st.eventKey[e] {
        if e in category.events {
          var j :| 0 <= j < |eventList| && eventList[j] == e;
        }
      }
    }

    /** `deleteEvent`: the event leaves its category and the store, and the
        remaining events of the category are renumbered by position. */
    method DeleteEvent(event: Event)
      requires Valid() && event in events
      modifies this, event`category, categories`events, events`orderIndex
      ensures Valid()
      ensures st == RemoveEvent(old(st), event)
    {
      RemoveEventConsistent(st, event);
      RemainderSorted(st, event, st.eventKey - {event});
      var category: Category := event.category;
      ghost var rest := Remove(st.eventOrder[category], event);
      UnfileEvent(event, category);
      var remainingEvents := FetchEvents(category, rest);
      RenumberedRanks(st.eventKey, remainingEvents);
      RenumberEvents(remainingEvents, Renumbered(st.eventKey, remainingEvents));
    }

    /** Detaching an event from its category and deleting it. */
    method UnfileEvent(event: Event, category: Category)
      requires Coupled() && event in events && event.category == category && category in categories
      modifies this, event`category, category`events
      ensures Coupled() && categories == old(categories) && events == old(events) - {event}
      ensures category.events == old(category.events) - {event}
      ensures st == old(st).(catEvents := old(st).catEvents[category := old(st).catEvents[category] - {event}],
                             events := old(st).events - {event},
                             eventOrder := old(st).eventOrder[category := Remove(old(st).eventOrder[category], event)],
                             eventKey := old(st).eventKey - {event},
                             eventCat := old(st).eventCat - {event})
    {
      event.category := null;
      category.events := category.events - {event};
      events := events - {event};
      st := st.(catEvents := st.catEvents[category := st.catEvents[category] - {event}],
                events := st.events - {event},
                eventOrder := st.eventOrder[category := Remove(st.eventOrder[category], event)],
                eventKey := st.eventKey - {event},
                eventCat := st.eventCat - {event});
    }

    /** A renumbering loop over events: each event of `eventList` gets its
        position as key. */
    method RenumberEvents(eventList: seq<Event>, ghost key: map<Event, int>)
      requires Coupled() && Distinct(eventList) && forall x :: x in eventList ==> x in events
      requires RankedBy(eventList, key) && forall x :: x in st.eventKey && x !in eventList ==> x in key && key[x] == st.eventKey[x]
      modifies this, eventList`orderIndex
      ensures Coupled() && categories == old(categories) && events == old(events)
      ensures st == old(st).(eventKey := key)
    {
      RenumberEventKeys(eventList, key);
      st := st.(eventKey := key);
    }

    /** `category.events = NSSet(array: eventList)` for a list holding the
        same events: the event set is unchanged, so the relationship's other
        side is too, and `eventList` becomes the category's event order. */
    method SetEventList(category: Category, eventList: seq<Event>)
      requires Coupled() && category in categories && Elements(eventList) == category.events
      modifies this, category`events
      ensures Coupled() && categories == old(categories) && events == old(events)
      ensures st == old(st).(catEvents := old(st).catEvents[category := Elements(eventList)],
                             eventOrder := old(st).eventOrder[category := eventList])
    {
      category.events := Elements(eventList);
      st := st.(catEvents := st.catEvents[category := Elements(eventList)],
                eventOrder := st.eventOrder[category := eventList]);
    }

    /** `moveEvent(_:toNewIndex:)`: the event is filtered out of its
        category's fetched events, inserted at `toNewIndex`, the list is
        renumbered by position and becomes the category's event set.
        `Array.insert` traps unless `toNewIndex` is at most the count of the
        other events. */
    method MoveEvent(event: Event, toNewIndex: int)
      requires Valid() && event in events && event.category != null
      requires 0 <= toNewIndex < |event.category.events|
      modifies this, event.category`events, event.category.events`orderIndex
      ensures Valid()
      ensures Filed(old(st), event) && toNewIndex <= |Remove(old(st).eventOrder[old(st).eventCat[event]], event)|
      ensures st == Store.MoveEvent(old(st), event, toNewIndex)
      ensures categories == old(categories) && events == old(events)
    {
      StoredEventFiled(st, event);
      MoveEventListing(st, event, toNewIndex);
      var category: Category := event.category;
      ghost var moved := MoveTo(st.eventOrder[category], event, toNewIndex);
      var eventList := OrderedEventsOf(category);
      eventList := Remove(eventList, event);
      eventList := InsertAt(eventList, toNewIndex, event);
      assert eventList == moved;
      RenumberEvents(eventList, Renumbered(st.eventKey, eventList));
      SetEventList(category, eventList);
      MoveEventConsistent(old(st), event, toNewIndex);
    }

    /** `moveEvent(_:toNewCategory:atIndex:)`: within the same category, a move
        to `atIndex` (default 0); otherwise the event is inserted at `atIndex`
        (default 0) of the destination's fetched events, that list is
        renumbered and becomes the destination's event set (which re-parents
        the event), and the source category's remaining events are renumbered.
        `Array.insert` traps unless the position is in range. */
    method MoveEventToCategory(event: Event, toCategory: Category, atIndex: Option<int>)
      requires Valid() && event in events && event.category != null && toCategory in categories
      requires 0 <= atIndex.GetOr(0)
      requires toCategory == event.category ==> atIndex.GetOr(0) < |toCategory.events|
      requires toCategory != event.category ==> atIndex.GetOr(0) <= |toCategory.events|
      modifies this, event`category, categories`events, events`orderIndex
      ensures Valid()
      ensures Filed(old(st), event)
      ensures toCategory == old(st).eventCat[event] ==> atIndex.GetOr(0) <= |Remove(old(st).eventOrder[toCategory], event)|
      ensures toCategory != old(st).eventCat[event] ==> atIndex.GetOr(0) <= |old(st).eventOrder[toCategory]|
      ensures st == Store.MoveEventToCategory(old(st), event, toCategory, atIndex)
      ensures categories == old(categories) && events == old(events)
    {
      StoredEventFiled(st, event);
      if toCategory == event.category {
        RankedIsDistinct(st.eventOrder[toCategory], st.eventKey);
        RemoveListing(st.eventOrder[toCategory], toCategory.events, event);
        ListedCount(st.eventOrder[toCategory], toCategory.events);
        MoveEvent(event, atIndex.GetOr(0));
        return;
      }
      var fromCategory: Category := event.category;
      var targetIndex := atIndex.GetOr(0);
      TransferToCategory(event, fromCategory, toCategory, targetIndex);
    }

    /** The other-category branch of `moveEvent(_:toNewCategory:atIndex:)`. */
    method TransferToCategory(event: Event, fromCategory: Category, toCategory: Category, k: nat)
      requires Valid() && event in events && event.category == fromCategory
      requires toCategory in categories && toCategory != fromCategory && k <= |toCategory.events|
      modifies this, event`category, fromCategory`events, toCategory`events, events`orderIndex
      ensures Valid()
      ensures Filed(old(st), event) && toCategory != old(st).eventCat[event] && k <= |old(st).eventOrder[toCategory]|
      ensures st == Store.TransferEvent(old(st), event, toCategory, k)
    {
      StoredEventFiled(st, event);
      RankedIsDistinct(st.eventOrder[toCategory], st.eventKey);
      ListedCount(st.eventOrder[toCategory], toCategory.events);
      TransferEventConsistent(st, event, toCategory, k);
      TransferKeepsSourceKeys(st, event, toCategory, k);
      TransferInSteps(st, event, toCategory, k);
      RemainderSorted(st, event, Renumbered(st.eventKey, InsertAt(st.eventOrder[toCategory], k, event)));
      ghost var rest := Remove(st.eventOrder[fromCategory], event);
      InsertIntoCategory(event, fromCategory, toCategory, k);
      ReplaceRemainder(fromCategory, rest);
    }

    /** The destination half of a transfer: `event` is inserted at `k` into
        the fetched events of `toCategory`, the list is renumbered and becomes
        that category's event set. */
    method InsertIntoCategory(event: Event, fromCategory: Category, toCategory: Category, k: nat)
      requires Valid() && event in events && event.category == fromCategory && fromCategory in categories
      requires toCategory in categories && toCategory != fromCategory && k <= |st.eventOrder[toCategory]|
      modifies this, event`category, fromCategory`events, toCategory`events, events`orderIndex
      ensures Coupled() && Filed(old(st), event)
      ensures st == AdoptIntoCategory(old(st), event, toCategory, k)
    {
      StoredEventFiled(st, event);
      RankedIsDistinct(st.eventOrder[toCategory], st.eventKey);
      InsertRenumbered(st.eventOrder[toCategory], toCategory.events, st.eventKey, event, k, st.eventKey);
      RankedIsDistinct(InsertAt(st.eventOrder[toCategory], k, event),
                       Renumbered(st.eventKey, InsertAt(st.eventOrder[toCategory], k, event)));
      var eventList := OrderedEventsOf(toCategory);
      eventList := InsertAt(eventList, k, event);
      RenumberedRanks(st.eventKey, eventList);
      RenumberEvents(eventList, Renumbered(st.eventKey, eventList));
      AdoptEvent(event, fromCategory, toCategory, eventList);
    }

    /** The source half of a transfer: the remaining events of `category`,
        fetched in order, are renumbered and become its event set. */
    method ReplaceRemainder(category: Category, ghost rest: seq<Event>)
      requires Coupled() && category in categories && category.events <= events
      requires Lists(rest, category.events) && StrictlySortedBy(rest, st.eventKey)
      modifies this, category`events, events`orderIndex
      ensures Coupled()
      ensures st == ReplaceEventList(old(st), category, rest)
    {
      var remaining := FetchEvents(category, rest);
      ElementsOfEnumeration(remaining, category.events);
      RenumberedRanks(st.eventKey, remaining);
      RenumberEvents(remaining, Renumbered(st.eventKey, remaining));
      SetEventList(category, remaining);
    }

    /** `toCategory.events = NSSet(array: eventList)` where the list adds one
        event of another category: the relationship's other side follows, so
        the event names `toCategory` and leaves the event set of its old
        category. */
    method AdoptEvent(event: Event, fromCategory: Category, toCategory: Category, eventList: seq<Event>)
      requires Coupled() && event in events && fromCategory in categories && toCategory in categories
      requires fromCategory != toCategory && event.category == fromCategory
      requires Elements(eventList) == toCategory.events + {event}
      modifies this, event`category, fromCategory`events, toCategory`events
      ensures Coupled() && categories == old(categories) && events == old(events)
      ensures fromCategory.events == old(fromCategory.events) - {event}
      ensures st == old(st).(catEvents := old(st).catEvents[toCategory := Elements(eventList)]
                                                           [fromCategory := old(st).catEvents[fromCategory] - {event}],
                             eventOrder := old(st).eventOrder[toCategory := eventList],
                             eventCat := old(st).eventCat[event := toCategory])
    {
      toCategory.events := Elements(eventList);
      event.category := toCategory;
      fromCategory.events := fromCategory.events - {event};
      st := st.(catEvents := st.catEvents[toCategory := Elements(eventList)][fromCategory := st.catEvents[fromCategory] - {event}],
                eventOrder := st.eventOrder[toCategory := eventList],
                eventCat := st.eventCat[event := toCategory]);
    }

    // -------------------------------------------------------------------------
    // Queries
    // -------------------------------------------------------------------------

    /** `firstEvent`: the head of the event list of the first category, in
        category order, that has events; null exactly when no event is stored. */
    method FirstEvent() returns (first: Event?)
      requires Valid()
      ensures first == FirstEventIn(st.catOrder, st.eventOrder)
      ensures first == null <==> events == {}
      ensures first != null ==> && first in events && first.orderIndex == 0
                                && first.category != null && first.category in categories
                                && forall c :: c in categories && c.orderIndex < first.category.orderIndex
                                               ==> c.events == {}
    {
      first := FirstListed();
      FirstEventOfStore(st);
    }

    /** The loop of `firstEvent`: walks the category order and returns the
        head of the first non-empty event list. */
    method FirstListed() returns (first: Event?)
      requires Valid()
      ensures first == FirstEventIn(st.catOrder, st.eventOrder)
    {
      var all := CategoryOrder();
      ghost var s := st;
      for i := 0 to |all|
        invariant FirstEventIn(all[i..], s.eventOrder) == FirstEventIn(all, s.eventOrder)
      {
        assert all[i] in s.categories;
        var list := OrderedEventsOf(all[i]);
        assert all[i..][0] == all[i] && list == s.eventOrder[all[i]];
        if |list| > 0 {
          return list[0];
        }
        assert all[i..][1..] == all[i + 1..];
      }
      assert all[|all|..] == [];
      return null;
    }

    /** `countDueEvents`: the number of stored events due within `numDays`
        days, each counted once, walking the event list of every category. */
    method CountDueEvents(endOfToday: Date, numDays: int) returns (count: nat)
      requires Valid()
      ensures count == |DueAmong(events, endOfToday, numDays)|
      ensures count <= |events|
    {
      ghost var due := DueAmong(events, endOfToday, numDays);
      count := CountDueUnder(due, endOfToday, numDays);
      assert due == DueAmong(events, endOfToday, numDays);
      FiledUnderAll(st, due);
      assert count == |due| by {
        assert due * st.events == due;
      }
      SubsetCount(due, st.events);
    }

    /** The outer loop of `countDueEvents`, over the category order: the sum
        over the categories of the due events each lists. */
    method CountDueUnder(ghost due: set<Event>, endOfToday: Date, numDays: int) returns (count: nat)
      requires Valid() && due == DueAmong(events, endOfToday, numDays)
      ensures count == |FiledBelow(st, |st.catOrder|, due)|
    {
      var all := CategoryOrder();
      ghost var s := st;
      count := 0;
      for i := 0 to |all|
        invariant count == |FiledBelow(s, i, due)|
      {
        FiledBelowStep(s, i, due);
        var n := CountDueOf(all[i], due, endOfToday, numDays);
        count := count + n;
      }
    }

    /** The inner loop of `countDueEvents` for one stored category: the
        number of due events in its event list. */
    method CountDueOf(c: Category, ghost due: set<Event>, endOfToday: Date, numDays: int) returns (n: nat)
      requires Valid()
      requires c in categories
      requires due == DueAmong(events, endOfToday, numDays)
      ensures n == |ListedIn(st.eventOrder[c], due)|
    {
      var list := OrderedEventsOf(c);
      RankedIsDistinct(list, st.eventKey);
      assert forall e :: e in list ==> e in c.events;
      n := CountDueIn(list, due, endOfToday, numDays);
    }

    /** `buildPath`: the event's row within its category and its category's
        section; in a consistent store these are the two order keys, and an
        event that is not stored has no path. */
    method BuildPath(event: Event) returns (path: IndexPath)
      requires Valid()
      ensures event in events ==> path == IndexPath(event.orderIndex, event.category.orderIndex)
      ensures event !in events ==> path == NoPath
    {
      var category := event.category;
      if category == null {
        return NoPath;
      }
      var all := CategoryOrder();
      var section := FirstIndex(all, category);
      if section.None? {
        return NoPath;
      }
      var list := OrderedEventsOf(category);
      var row := FirstIndex(list, event);
      if row.None? {
        return NoPath;
      }
      path := IndexPath(row.value, section.value);
    }
  }

  // ---------------------------------------------------------------------------
  // The loops themselves, over the fetched lists
  // ---------------------------------------------------------------------------

  /** The events of `es` due within `numDays` days after the end of today. */
  ghost function DueAmong(es: set<Event>, endOfToday: Date, numDays: int): set<Event>
    reads es`lastDate, es`nextDate
  {
    set e | e in es && e.IsDueWithin(endOfToday, numDays)
  }

  /** The inner loop of `countDueEvents`: over a list without repetitions,
      the number of listed events that are due, where `due` holds exactly
      the listed events that are. */
  method CountDueIn(list: seq<Event>, ghost due: set<Event>, endOfToday: Date, numDays: int) returns (n: nat)
    requires Distinct(list)
    requires forall e :: e in list ==> (e in due <==> e.IsDueWithin(endOfToday, numDays))
    ensures n == |ListedIn(list, due)|
    ensures n <= |list|
  {
    n := 0;
    for j := 0 to |list|
      invariant n == |ListedIn(list[..j], due)| && n <= j
    {
      assert list[j] !in list[..j];
      ListedInStep(list, j, due);
      if list[j].IsDueWithin(endOfToday, numDays) {
        n := n + 1;
      }
    }
    assert list[..|list|] == list;
  }

  /** The loop of `createNewCategory`: every listed category whose key is at or
      above `k` moves up one; nothing else changes. */
  method BumpCategoryKeys(all: seq<Category>, k: int)
    requires Distinct(all)
    modifies all`orderIndex
    ensures forall j :: 0 <= j < |all| ==>
              all[j].orderIndex == if old(all[j].orderIndex) >= k then old(all[j].orderIndex) + 1 else old(all[j].orderIndex)
  {
    for i := 0 to |all|
      invariant forall j :: 0 <= j < |all| ==>
                  all[j].orderIndex == if j < i && old(all[j].orderIndex) >= k then old(all[j].orderIndex) + 1 else old(all[j].orderIndex)
    {
      if all[i].orderIndex >= k {
        all[i].orderIndex := all[i].orderIndex + 1;
      }
    }
  }

  /** The loop of `deleteCategory`: every listed category whose key is above
      `k` moves down one. */
  method DropCategoryKeys(all: seq<Category>, k: int)
    requires Distinct(all)
    modifies all`orderIndex
    ensures forall j :: 0 <= j < |all| ==>
              all[j].orderIndex == if old(all[j].orderIndex) > k then old(all[j].orderIndex) - 1 else old(all[j].orderIndex)
  {
    for i := 0 to |all|
      invariant forall j :: 0 <= j < |all| ==>
                  all[j].orderIndex == if j < i && old(all[j].orderIndex) > k then old(all[j].orderIndex) - 1 else old(all[j].orderIndex)
    {
      if all[i].orderIndex > k {
        all[i].orderIndex := all[i].orderIndex - 1;
      }
    }
  }

  /** The loop of `moveCategory`: each listed category gets its position as key. */
  method RenumberCategoryKeys(revised: seq<Category>, ghost key: map<Category, int>)
    requires Distinct(revised) && RankedBy(revised, key)
    modifies revised`orderIndex
    ensures forall j :: 0 <= j < |revised| ==> revised[j].orderIndex == j
    ensures forall c :: c in revised ==> c in key && c.orderIndex == key[c]
  {
    for i := 0 to |revised|
      invariant forall j :: 0 <= j < i ==> revised[j].orderIndex == j
    {
      revised[i].orderIndex := i;
    }
  }

  /** The loop of `createNewEvent`: every listed event whose key is at or above
      `k` moves up one. */
  method BumpEventKeys(eventList: seq<Event>, k: int)
    requires Distinct(eventList)
    modifies eventList`orderIndex
    ensures forall j :: 0 <= j < |eventList| ==>
              eventList[j].orderIndex == if old(eventList[j].orderIndex) >= k then old(eventList[j].orderIndex) + 1 else old(eventList[j].orderIndex)
  {
    for i := 0 to |eventList|
      invariant forall j :: 0 <= j < |eventList| ==>
                  eventList[j].orderIndex == if j < i && old(eventList[j].orderIndex) >= k then old(eventList[j].orderIndex) + 1 else old(eventList[j].orderIndex)
    {
      if eventList[i].orderIndex >= k {
        eventList[i].orderIndex := eventList[i].orderIndex + 1;
      }
    }
  }

  /** The renumbering loops of `deleteEvent` and both `moveEvent`s: each
      listed event gets its position as key. */
  method RenumberEventKeys(eventList: seq<Event>, ghost key: map<Event, int>)
    requires Distinct(eventList) && RankedBy(eventList, key)
    modifies eventList`orderIndex
    ensures forall j :: 0 <= j < |eventList| ==> eventList[j].orderIndex == j
    ensures forall e :: e in eventList ==> e in key && e.orderIndex == key[e]
  {
    for i := 0 to |eventList|
      invariant forall j :: 0 <= j < i ==> eventList[j].orderIndex == j
    {
      eventList[i].orderIndex := i;
    }
  }
}
