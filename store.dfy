/** The record store read as a value, and what each model operation does to it.

    `Contents` is what the object graph holds at one moment: which records are
    stored, their order keys, the two sides of the Category-to-Event
    relationship, and the two orders a fetch sorted by key returns. The model's
    methods are each proved to take the store from `s` to one of the functions
    below applied to `s`; the lemmas here then show, on values alone, that each
    of those functions keeps the order keys dense. */
module Store {
  import opened Optional
  import opened Ordering
  import opened Records

  datatype Contents = Contents(
    /** The stored Category records. */
    categories: set<Category>,
    /** The category order: what the ordered Category fetch returns. */
    catOrder: seq<Category>,
    /** `orderIndex` of each stored category. */
    catKey: map<Category, int>,
    /** `events` of each stored category. */
    catEvents: map<Category, set<Event>>,
    /** The stored Event records. */
    events: set<Event>,
    /** For each stored category, what its `orderedEvents()` returns. */
    eventOrder: map<Category, seq<Event>>,
    /** `orderIndex` of each stored event. */
    eventKey: map<Event, int>,
    /** `category` of each stored event. */
    eventCat: map<Event, Category?>)

  /** Every map covers exactly the stored records it describes. */
  ghost predicate Covers(s: Contents) {
    && s.catKey.Keys == s.categories
    && s.catEvents.Keys == s.categories
    && s.eventOrder.Keys == s.categories
    && s.eventKey.Keys == s.events
    && s.eventCat.Keys == s.events
  }

  /** The relationship is two-sided and complete: each stored event belongs to
      exactly one stored category, the one whose event set holds it. */
  ghost predicate Linked(s: Contents)
    requires Covers(s)
  {
    EventSetsStored(s) && EventsFiled(s) && FiledUnderOwner(s)
  }

  /** Each stored event names a stored category, whose event set holds it. */
  ghost predicate EventsFiled(s: Contents)
    requires Covers(s)
  {
    forall e :: e in s.events ==>
      s.eventCat[e] != null && s.eventCat[e] in s.categories && e in s.catEvents[s.eventCat[e]]
  }

  /** Each category's event set holds stored events only. */
  ghost predicate EventSetsStored(s: Contents)
    requires Covers(s)
  {
    forall c :: c in s.categories ==> s.catEvents[c] <= s.events
  }

  /** An event in the event set of a category names that category. */
  ghost predicate FiledUnderOwner(s: Contents)
    requires Covers(s)
  {
    forall c, e :: c in s.categories && e in s.catEvents[c] ==> e in s.eventCat && s.eventCat[e] == c
  }

  /** The store invariant: the records are linked, the category order lists the
      categories with each one's key its position, and each category's event
      order lists its events with each one's key its position. */
  ghost predicate Consistent(s: Contents) {
    Covers(s) && Linked(s) && CategoriesOrdered(s) && EventsOrdered(s)
  }

  /** The category order lists the categories, each one's key being its
      position (so no category is listed twice). */
  ghost predicate CategoriesOrdered(s: Contents)
    requires Covers(s)
  {
    Enumerates(s.catOrder, s.categories) && RankedBy(s.catOrder, s.catKey)
  }

  /** Each category's event order lists its events, the key of each event
      being its position. */
  ghost predicate EventsOrdered(s: Contents)
    requires Covers(s)
  {
    forall c :: c in s.categories ==> ListsEvents(s, c)
  }

  /** The event order of `c` lists its events, the key of each event being
      its position. */
  ghost predicate ListsEvents(s: Contents, c: Category)
    requires c in s.eventOrder && c in s.catEvents
  {
    Enumerates(s.eventOrder[c], s.catEvents[c]) && RankedBy(s.eventOrder[c], s.eventKey)
  }

  // ---------------------------------------------------------------------------
  // Key updates
  // ---------------------------------------------------------------------------

  /** `k` limited to 0 .. n. */
  function Clamp(k: int, n: nat): (r: nat)
    ensures r <= n
    ensures 0 <= k <= n ==> r == k
    ensures k < 0 ==> r == 0
    ensures k > n ==> r == n
  {
    if k < 0 then 0 else if k > n then n else k
  }

  // ---------------------------------------------------------------------------
  // Category operations
  // ---------------------------------------------------------------------------

  /** `createNewCategory`: the categories whose key is at or above `k` move up
      one, and the new category `c`, holding no events, takes key `k`. The
      fetch then lists `c` at position `k`, or first or last when `k` is out of
      range. */
  function AddCategory(s: Contents, c: Category, k: int): Contents {
    s.(categories := s.categories + {c},
       catOrder := InsertAt(s.catOrder, Clamp(k, |s.catOrder|), c),
       catKey := BumpFrom(s.catKey, s.categories, k)[c := k],
       catEvents := s.catEvents[c := {}],
       eventOrder := s.eventOrder[c := []])
  }

  /** `deleteCategory`: the keys above the key of `c` move down one, and `c`
      is deleted together with its events. */
  function RemoveCategory(s: Contents, c: Category): Contents
    requires c in s.catKey && c in s.catEvents
  {
    var gone := s.catEvents[c];
    s.(categories := s.categories - {c},
       catOrder := Remove(s.catOrder, c),
       catKey := DropAbove(s.catKey, s.catKey[c]) - {c},
       catEvents := s.catEvents - {c},
       events := s.events - gone,
       eventOrder := s.eventOrder - {c},
       eventKey := s.eventKey - gone,
       eventCat := s.eventCat - gone)
  }

  /** `moveCategory`: `c` is taken out of the category order and put back at
      position `k`, and every category is renumbered by its new position. */
  function MoveCategory(s: Contents, c: Category, k: nat): Contents
    requires Consistent(s) && k <= |Remove(s.catOrder, c)|
  {
    var revised := MoveTo(s.catOrder, c, k);
    s.(catOrder := revised, catKey := Renumbered(s.catKey, revised))
  }

  /** Creating a category keeps the store consistent exactly when the
      requested position is one of the n + 1 slots 0 .. n. */
  lemma AddCategoryConsistent(s: Contents, c: Category, k: int)
    requires Consistent(s) && c !in s.categories
    ensures Consistent(AddCategory(s, c, k)) <==> 0 <= k <= |s.catOrder|
  {
    AddCategoryEvents(s, c, k);
    AddCategoryOrder(s, c, k);
  }

  lemma AddCategoryEvents(s: Contents, c: Category, k: int)
    requires Consistent(s) && c !in s.categories
    ensures Covers(AddCategory(s, c, k))
    ensures Linked(AddCategory(s, c, k)) && EventsOrdered(AddCategory(s, c, k))
  {
    var t := AddCategory(s, c, k);
    forall d | d in t.categories ensures ListsEvents(t, d) {
      if d != c {
        assert ListsEvents(s, d);
      }
    }
    EmptyCategoryLinked(s, t, c);
  }

  /** Adding a category with no events keeps the links. */
  lemma EmptyCategoryLinked(s: Contents, t: Contents, c: Category)
    requires Covers(s) && Linked(s) && Covers(t) && c !in s.categories
    requires t.categories == s.categories + {c} && t.catEvents == s.catEvents[c := {}]
    requires t.events == s.events && t.eventCat == s.eventCat
    ensures Linked(t)
  {
    forall d, x | d in t.categories && x in t.catEvents[d] ensures x in t.eventCat && t.eventCat[x] == d {
      assert d != c;
    }
  }

  lemma AddCategoryOrder(s: Contents, c: Category, k: int)
    requires Covers(s) && CategoriesOrdered(s) && c !in s.categories
    ensures Covers(AddCategory(s, c, k))
    ensures CategoriesOrdered(AddCategory(s, c, k)) <==> 0 <= k <= |s.catOrder|
  {
    var t := AddCategory(s, c, k);
    var n := |s.catOrder|;
    if 0 <= k <= n {
      InsertListing(s.catOrder, s.categories, k, c);
      InsertRanked(s.catOrder, s.catKey, s.categories, k, c);
    } else {
      assert t.catOrder[Clamp(k, n)] == c;
    }
  }

  /** Deleting a category keeps the store consistent, and the category order
      loses exactly the slot of the deleted category. */
  lemma RemoveCategoryConsistent(s: Contents, c: Category)
    requires Consistent(s) && c in s.categories
    ensures s.catKey[c] < |s.catOrder|
    ensures RemoveCategory(s, c).catOrder == s.catOrder[..s.catKey[c]] + s.catOrder[s.catKey[c] + 1..]
    ensures Consistent(RemoveCategory(s, c))
  {
    RemoveCategoryEvents(s, c);
    RemoveCategoryOrder(s, c);
  }

  lemma RemoveCategoryEvents(s: Contents, c: Category)
    requires Consistent(s) && c in s.categories
    ensures Covers(RemoveCategory(s, c))
    ensures Linked(RemoveCategory(s, c)) && EventsOrdered(RemoveCategory(s, c))
  {
    RemoveCategoryLinked(s, c);
    RemoveCategoryEventOrders(s, c);
  }

  lemma RemoveCategoryLinked(s: Contents, c: Category)
    requires Consistent(s) && c in s.categories
    ensures Covers(RemoveCategory(s, c)) && Linked(RemoveCategory(s, c))
  {
    var t := RemoveCategory(s, c);
    forall e | e in t.events ensures s.eventCat[e] != c {
      assert e !in s.catEvents[c];
    }
  }

  lemma RemoveCategoryEventOrders(s: Contents, c: Category)
    requires Consistent(s) && c in s.categories
    ensures Covers(RemoveCategory(s, c)) && EventsOrdered(RemoveCategory(s, c))
  {
    var t := RemoveCategory(s, c);
    forall d, i | d in t.categories && 0 <= i < |t.eventOrder[d]|
      ensures t.eventOrder[d][i] in t.eventKey && t.eventKey[t.eventOrder[d][i]] == i
    {
      var x := s.eventOrder[d][i];
      assert x in s.eventOrder[d];
      assert x in s.catEvents[d] && s.eventCat[x] == d;
    }
  }

  lemma RemoveCategoryOrder(s: Contents, c: Category)
    requires Covers(s) && CategoriesOrdered(s) && c in s.categories
    ensures s.catKey[c] < |s.catOrder|
    ensures RemoveCategory(s, c).catOrder == s.catOrder[..s.catKey[c]] + s.catOrder[s.catKey[c] + 1..]
    ensures Covers(RemoveCategory(s, c)) ==> CategoriesOrdered(RemoveCategory(s, c))
  {
    assert c in s.catOrder;
    RemoveRanked(s.catOrder, s.catKey, c);
    RemoveListing(s.catOrder, s.categories, c);
  }

  /** Moving a category keeps the store consistent; the category ends at
      position `k` with key `k`, and the others keep their relative order. */
  lemma MoveCategoryConsistent(s: Contents, c: Category, k: nat)
    requires Consistent(s) && c in s.categories && k <= |Remove(s.catOrder, c)|
    ensures |Remove(s.catOrder, c)| == |s.catOrder| - 1
    ensures Consistent(MoveCategory(s, c, k))
    ensures MoveCategory(s, c, k).catOrder[k] == c && MoveCategory(s, c, k).catKey[c] == k
    ensures Remove(MoveCategory(s, c, k).catOrder, c) == Remove(s.catOrder, c)
  {
    var t := MoveCategory(s, c, k);
    MoveRenumbered(s.catOrder, s.categories, s.catKey, c, k, s.catKey);
    assert t.catKey.Keys == s.catKey.Keys by {
      forall x | x in t.catOrder ensures x in s.catKey {
        assert x in s.categories;
      }
    }
    CategoryOrderChanged(s, t);
  }

  /** A store that differs from a consistent one only in the category order
      and the category keys keeps the links and the event orders. */
  lemma CategoryOrderChanged(s: Contents, t: Contents)
    requires Consistent(s) && t == s.(catOrder := t.catOrder, catKey := t.catKey)
    requires t.catKey.Keys == s.catKey.Keys
    ensures Covers(t) && Linked(t) && EventsOrdered(t)
  {
  }

  // ---------------------------------------------------------------------------
  // Event operations
  // ---------------------------------------------------------------------------

  /** `e` has a category that the store describes: what `event.category!`
      needs in order not to trap. */
  ghost predicate Filed(s: Contents, e: Event) {
    e in s.eventCat && s.eventCat[e] != null && s.eventCat[e] in s.catEvents && s.eventCat[e] in s.eventOrder
  }

  /** `createNewEvent`: the events of `c` whose key is at or above `k` move up
      one, and the new event `e`, attached to `c`, takes key `k`. */
  function AddEvent(s: Contents, e: Event, c: Category, k: int): Contents
    requires c in s.catEvents && c in s.eventOrder
  {
    var list := s.eventOrder[c];
    s.(catEvents := s.catEvents[c := s.catEvents[c] + {e}],
       events := s.events + {e},
       eventOrder := s.eventOrder[c := InsertAt(list, Clamp(k, |list|), e)],
       eventKey := BumpFrom(s.eventKey, s.catEvents[c], k)[e := k],
       eventCat := s.eventCat[e := c])
  }

  /** The first step of `createNewEvent`: the new event `e` is attached to
      `c` and stored, with the key a new record has. */
  function AttachEvent(s: Contents, e: Event, c: Category): Contents
    requires c in s.catEvents
  {
    s.(catEvents := s.catEvents[c := s.catEvents[c] + {e}],
       events := s.events + {e},
       eventKey := s.eventKey[e := UnassignedIndex],
       eventCat := s.eventCat[e := c])
  }

  /** The second step of `createNewEvent`: the events of `c` whose key is at
      or above `k` move up one, then `e` takes key `k`. */
  function PlaceEvent(s: Contents, e: Event, c: Category, k: int): Contents
    requires c in s.catEvents && c in s.eventOrder
  {
    var list := s.eventOrder[c];
    s.(eventOrder := s.eventOrder[c := InsertAt(list, Clamp(k, |list|), e)],
       eventKey := BumpFrom(s.eventKey, s.catEvents[c], k)[e := k])
  }

  /** The two steps make up `AddEvent`: the attached event is among those the
      bump visits, but its key is overwritten afterwards. */
  lemma AddEventInSteps(s: Contents, e: Event, c: Category, k: int)
    requires c in s.catEvents && c in s.eventOrder
    ensures PlaceEvent(AttachEvent(s, e, c), e, c, k) == AddEvent(s, e, c, k)
  {
    BumpAttached(s.eventKey, s.catEvents[c], k, e, UnassignedIndex);
  }

  /** The position `createNewEvent` gives a new event in `c` when the caller
      names none, as the source computes it: the count of `orderedEvents()`
      taken after the new event is attached, so the new event counts itself. */
  function NewEventIndexAsWritten(s: Contents, c: Category, index: Option<int>): int
    requires c in s.eventOrder
  {
    index.GetOr(|s.eventOrder[c]| + 1)
  }

  /** The position the default is meant to give: after the existing events. */
  function NewEventIndex(s: Contents, c: Category, index: Option<int>): int
    requires c in s.eventOrder
  {
    index.GetOr(|s.eventOrder[c]|)
  }

  /** `deleteEvent`: `e` leaves its category and the store, and the remaining
      events of that category are renumbered by position. */
  function RemoveEvent(s: Contents, e: Event): Contents
    requires Filed(s, e)
  {
    var c: Category := s.eventCat[e];
    var rest := Remove(s.eventOrder[c], e);
    s.(catEvents := s.catEvents[c := s.catEvents[c] - {e}],
       events := s.events - {e},
       eventOrder := s.eventOrder[c := rest],
       eventKey := Renumbered(s.eventKey - {e}, rest),
       eventCat := s.eventCat - {e})
  }

  /** `moveEvent(_:toNewIndex:)`: `e` is taken out of its category's event
      order and put back at position `k`; that order is renumbered by position
      and becomes the category's event set. */
  function MoveEvent(s: Contents, e: Event, k: nat): Contents
    requires Filed(s, e) && k <= |Remove(s.eventOrder[s.eventCat[e]], e)|
  {
    var c: Category := s.eventCat[e];
    var moved := MoveTo(s.eventOrder[c], e, k);
    s.(catEvents := s.catEvents[c := Elements(moved)],
       eventOrder := s.eventOrder[c := moved],
       eventKey := Renumbered(s.eventKey, moved))
  }

  /** `moveEvent(_:toNewCategory:atIndex:)` for another category: `e` is
      inserted at position `k` of the event order of `to`, which is renumbered
      and becomes the event set of `to` (attaching `e` there detaches it from
      its old category), and the remaining events of the old category are
      renumbered by position. */
  function TransferEvent(s: Contents, e: Event, to: Category, k: nat): Contents
    requires Filed(s, e) && to in s.catEvents && to in s.eventOrder && to != s.eventCat[e]
    requires k <= |s.eventOrder[to]|
  {
    var from: Category := s.eventCat[e];
    var dest := InsertAt(s.eventOrder[to], k, e);
    var rest := Remove(s.eventOrder[from], e);
    var catEvents: map<Category, set<Event>> := s.catEvents[to := Elements(dest)];
    var eventOrder: map<Category, seq<Event>> := s.eventOrder[to := dest];
    var eventKey := Renumbered(s.eventKey, dest);
    s.(catEvents := catEvents[from := Elements(rest)],
       eventOrder := eventOrder[from := rest],
       eventKey := Renumbered(eventKey, rest),
       eventCat := s.eventCat[e := to])
  }

  /** The first step of a transfer: `e` is inserted at position `k` of the
      event order of `to`, that order is renumbered and becomes the event set
      of `to`, and `e` is re-parented out of the event set of its old
      category. */
  function AdoptIntoCategory(s: Contents, e: Event, to: Category, k: nat): Contents
    requires Filed(s, e) && to in s.catEvents && to in s.eventOrder && k <= |s.eventOrder[to]|
  {
    var from: Category := s.eventCat[e];
    var dest := InsertAt(s.eventOrder[to], k, e);
    s.(catEvents := s.catEvents[to := Elements(dest)][from := s.catEvents[from] - {e}],
       eventOrder := s.eventOrder[to := dest],
       eventKey := Renumbered(s.eventKey, dest),
       eventCat := s.eventCat[e := to])
  }

  /** The second step of a transfer: the listed remainder `rest` of category
      `c` is renumbered and becomes its event set and its event order. */
  function ReplaceEventList(s: Contents, c: Category, rest: seq<Event>): Contents {
    s.(catEvents := s.catEvents[c := Elements(rest)],
       eventOrder := s.eventOrder[c := rest],
       eventKey := Renumbered(s.eventKey, rest))
  }

  /** The two steps make up `TransferEvent`. */
  lemma TransferInSteps(s: Contents, e: Event, to: Category, k: nat)
    requires Filed(s, e) && to in s.catEvents && to in s.eventOrder && to != s.eventCat[e]
    requires k <= |s.eventOrder[to]|
    ensures ReplaceEventList(AdoptIntoCategory(s, e, to, k), s.eventCat[e], Remove(s.eventOrder[s.eventCat[e]], e))
            == TransferEvent(s, e, to, k)
  {
    var from: Category := s.eventCat[e];
    var dest := InsertAt(s.eventOrder[to], k, e);
    var rest := Remove(s.eventOrder[from], e);
    var t := ReplaceEventList(AdoptIntoCategory(s, e, to, k), from, rest);
    var v := TransferEvent(s, e, to, k);
    assert t.catEvents == s.catEvents[to := Elements(dest)][from := Elements(rest)] == v.catEvents;
    assert t.eventOrder == s.eventOrder[to := dest][from := rest] == v.eventOrder;
  }

  /** `moveEvent(_:toNewCategory:atIndex:)`: within the same category a move
      to `atIndex` (default 0), otherwise a transfer to position `atIndex`
      (default 0) of `to`. */
  function MoveEventToCategory(s: Contents, e: Event, to: Category, atIndex: Option<int>): Contents
    requires Filed(s, e) && to in s.catEvents && to in s.eventOrder
    requires 0 <= atIndex.GetOr(0)
    requires to == s.eventCat[e] ==> atIndex.GetOr(0) <= |Remove(s.eventOrder[to], e)|
    requires to != s.eventCat[e] ==> atIndex.GetOr(0) <= |s.eventOrder[to]|
  {
    if to == s.eventCat[e] then MoveEvent(s, e, atIndex.GetOr(0))
    else TransferEvent(s, e, to, atIndex.GetOr(0))
  }

  // ---------------------------------------------------------------------------
  // Facts shared by the event operations
  // ---------------------------------------------------------------------------

  /** In a consistent store, a stored event is filed under a stored category
      whose event set holds it and whose event order is in order. */
  lemma StoredEventFiled(s: Contents, e: Event)
    requires Consistent(s) && e in s.events
    ensures Filed(s, e) && s.eventCat[e] in s.categories && e in s.catEvents[s.eventCat[e]]
    ensures ListsEvents(s, s.eventCat[e]) && s.catEvents[s.eventCat[e]] <= s.events
  {
  }

  /** Once `e` leaves its category, the rest of that category's event order
      lists the remaining events with strictly increasing keys, under any keys
      that agree with the old ones on those events: so a fetch sorted by key
      returns exactly that rest. */
  lemma RemainderSorted(s: Contents, e: Event, key': map<Event, int>)
    requires Consistent(s) && e in s.events
    requires forall x :: x in s.catEvents[s.eventCat[e]] && x != e ==> x in key' && key'[x] == s.eventKey[x]
    ensures Filed(s, e)
    ensures var c := s.eventCat[e]; var rest := Remove(s.eventOrder[c], e);
      && Lists(rest, s.catEvents[c] - {e}) && StrictlySortedBy(rest, key')
      && s.catEvents[c] <= s.events
  {
    StoredEventFiled(s, e);
    var c: Category := s.eventCat[e];
    var list := s.eventOrder[c];
    RankedIsDistinct(list, s.eventKey);
    RemoveListing(list, s.catEvents[c], e);
    RankedIsStrictlySorted(list, s.eventKey);
    RemoveKeepsStrictOrder(list, e, s.eventKey);
    StrictlySortedRekeyed(Remove(list, e), s.eventKey, key');
  }

  /** Renumbering the destination order of a transfer leaves the keys of the
      source category's other events alone: none of them is listed there. */
  lemma TransferKeepsSourceKeys(s: Contents, e: Event, to: Category, k: nat)
    requires Consistent(s) && e in s.events && to in s.categories
    requires to != s.eventCat[e] && k <= |s.eventOrder[to]|
    ensures Filed(s, e)
    ensures var key' := Renumbered(s.eventKey, InsertAt(s.eventOrder[to], k, e));
      forall x :: x in s.catEvents[s.eventCat[e]] && x != e ==> x in key' && key'[x] == s.eventKey[x]
  {
    StoredEventFiled(s, e);
    var from: Category := s.eventCat[e];
    var dest := InsertAt(s.eventOrder[to], k, e);
    InsertedMembers(s.eventOrder[to], k, e);
    forall x | x in s.catEvents[from] && x != e
      ensures x !in dest && x in s.eventKey
    {
      assert x !in s.catEvents[to];
    }
  }

  /** Taking `e` out of its category's event set and out of the store keeps
      the links. */
  lemma UnfileLinked(s: Contents, u: Contents, e: Event)
    requires Covers(s) && Linked(s) && Covers(u) && e in s.events
    requires u.categories == s.categories && u.events == s.events - {e} && u.eventCat == s.eventCat - {e}
    requires u.catEvents == s.catEvents[s.eventCat[e] := s.catEvents[s.eventCat[e]] - {e}]
    ensures Linked(u)
  {
    var c: Category := s.eventCat[e];
    forall d | d in u.categories ensures u.catEvents[d] <= u.events {
      if d != c {
        assert e !in s.catEvents[d];
      }
    }
    forall x | x in u.events ensures u.eventCat[x] != null && u.eventCat[x] in u.categories && x in u.catEvents[u.eventCat[x]] {
      assert x in s.catEvents[s.eventCat[x]];
    }
    forall d, x | d in u.categories && x in u.catEvents[d] ensures x in u.eventCat && u.eventCat[x] == d {
      assert x in s.catEvents[d];
    }
  }

  /** Putting a new event `e` into the event set of `c` and into the store
      keeps the links. */
  lemma FileLinked(u: Contents, t: Contents, e: Event, c: Category)
    requires Covers(u) && Linked(u) && Covers(t) && e !in u.events && c in u.categories
    requires t.categories == u.categories && t.events == u.events + {e} && t.eventCat == u.eventCat[e := c]
    requires t.catEvents == u.catEvents[c := u.catEvents[c] + {e}]
    ensures Linked(t)
  {
    forall d, x | d in t.categories && x in t.catEvents[d] ensures x in t.eventCat && t.eventCat[x] == d {
      if x != e {
        assert x in u.catEvents[d];
      }
    }
    forall x | x in t.events ensures t.eventCat[x] != null && t.eventCat[x] in t.categories && x in t.catEvents[t.eventCat[x]] {
      if x != e {
        assert x in u.catEvents[u.eventCat[x]];
      }
    }
  }

  /** A store whose categories, events and links are those of a linked store
      is linked. */
  lemma SameLinks(s: Contents, t: Contents)
    requires Covers(s) && Linked(s) && Covers(t)
    requires t.categories == s.categories && t.events == s.events
    requires t.catEvents == s.catEvents && t.eventCat == s.eventCat
    ensures Linked(t)
  {
  }

  /** Event orders and event sets that stay the same, with keys that stay the
      same outside the events of `c1` and `c2`, stay in order. */
  lemma OtherListsKept(s: Contents, t: Contents, c1: Category, c2: Category)
    requires Covers(s) && FiledUnderOwner(s) && EventsOrdered(s) && Covers(t)
    requires c1 in s.categories && c2 in s.categories && t.categories == s.categories
    requires forall d :: d in s.categories && d != c1 && d != c2 ==>
               t.eventOrder[d] == s.eventOrder[d] && t.catEvents[d] == s.catEvents[d]
    requires forall x :: x in s.eventKey && x !in s.catEvents[c1] && x !in s.catEvents[c2] ==>
               x in t.eventKey && t.eventKey[x] == s.eventKey[x]
    ensures forall d :: d in t.categories && d != c1 && d != c2 ==> ListsEvents(t, d)
  {
    forall d, i | d in s.categories && d != c1 && d != c2 && 0 <= i < |s.eventOrder[d]|
      ensures s.eventOrder[d][i] in t.eventKey && t.eventKey[s.eventOrder[d][i]] == i
    {
      var x := s.eventOrder[d][i];
      assert ListsEvents(s, d);
      assert x in s.eventOrder[d];
      assert x in s.catEvents[d] && s.eventCat[x] == d;
    }
  }

  // ---------------------------------------------------------------------------
  // createNewEvent
  // ---------------------------------------------------------------------------

  /** Creating an event keeps the store consistent exactly when the requested
      position is one of the n + 1 slots 0 .. n of its category. */
  lemma AddEventConsistent(s: Contents, e: Event, c: Category, k: int)
    requires Consistent(s) && c in s.categories && e !in s.events
    ensures Consistent(AddEvent(s, e, c, k)) <==> 0 <= k <= |s.eventOrder[c]|
  {
    var t := AddEvent(s, e, c, k);
    AddEventCovers(s, e, c, k);
    FileLinked(s, t, e, c);
    assert e !in s.catEvents[c] && ListsEvents(s, c);
    AddEventOwnOrder(s, e, c, k);
    AddEventOtherOrders(s, e, c, k);
  }

  lemma AddEventCovers(s: Contents, e: Event, c: Category, k: int)
    requires Covers(s) && CategoriesOrdered(s) && c in s.categories && e !in s.events
    ensures Covers(AddEvent(s, e, c, k)) && CategoriesOrdered(AddEvent(s, e, c, k))
  {
  }

  lemma AddEventOwnOrder(s: Contents, e: Event, c: Category, k: int)
    requires Covers(s) && c in s.categories && ListsEvents(s, c) && e !in s.catEvents[c]
    ensures ListsEvents(AddEvent(s, e, c, k), c) <==> 0 <= k <= |s.eventOrder[c]|
  {
    var t := AddEvent(s, e, c, k);
    var list := s.eventOrder[c];
    assert e !in list;
    if 0 <= k <= |list| {
      RankedIsDistinct(list, s.eventKey);
      InsertListing(list, s.catEvents[c], k, e);
      InsertRanked(list, s.eventKey, s.catEvents[c], k, e);
    } else {
      assert t.eventOrder[c][Clamp(k, |list|)] == e;
    }
  }

  lemma AddEventOtherOrders(s: Contents, e: Event, c: Category, k: int)
    requires Covers(s) && FiledUnderOwner(s) && EventsOrdered(s) && c in s.categories && e !in s.events
    ensures Covers(AddEvent(s, e, c, k))
    ensures forall d :: d in s.categories && d != c ==> ListsEvents(AddEvent(s, e, c, k), d)
  {
    OtherListsKept(s, AddEvent(s, e, c, k), c, c);
  }

  /** The default position as written leaves a gap: the new event's key is one
      past the count of the category's other events, and the store is no
      longer consistent. */
  lemma NewEventDefaultAsWrittenLeavesGap(s: Contents, e: Event, c: Category)
    requires Consistent(s) && c in s.categories && e !in s.events
    ensures AddEvent(s, e, c, NewEventIndexAsWritten(s, c, None)).eventKey[e] == |s.eventOrder[c]| + 1
    ensures !Consistent(AddEvent(s, e, c, NewEventIndexAsWritten(s, c, None)))
  {
    AddEventConsistent(s, e, c, NewEventIndexAsWritten(s, c, None));
  }

  /** The intended default appends the new event after the existing ones and
      keeps the store consistent. */
  lemma NewEventDefaultAppends(s: Contents, e: Event, c: Category)
    requires Consistent(s) && c in s.categories && e !in s.events
    ensures Consistent(AddEvent(s, e, c, NewEventIndex(s, c, None)))
    ensures AddEvent(s, e, c, NewEventIndex(s, c, None)).eventOrder[c] == s.eventOrder[c] + [e]
  {
    AddEventConsistent(s, e, c, NewEventIndex(s, c, None));
    var list := s.eventOrder[c];
    assert InsertAt(list, |list|, e) == list + [e];
  }

  // ---------------------------------------------------------------------------
  // deleteEvent
  // ---------------------------------------------------------------------------

  /** Deleting an event keeps the store consistent; its category's event order
      loses exactly that event. */
  lemma RemoveEventConsistent(s: Contents, e: Event)
    requires Consistent(s) && e in s.events
    ensures Filed(s, e) && s.eventCat[e] in s.categories
    ensures var c := s.eventCat[e]; var t := RemoveEvent(s, e);
      && Consistent(t)
      && t.eventOrder[c] == Remove(s.eventOrder[c], e)
      && |t.eventOrder[c]| == |s.eventOrder[c]| - 1
  {
    StoredEventFiled(s, e);
    var t := RemoveEvent(s, e);
    RemoveEventCovers(s, e);
    UnfileLinked(s, t, e);
    RemoveEventOwnOrder(s, e);
    RemoveEventOtherOrders(s, e);
  }

  lemma RemoveEventCovers(s: Contents, e: Event)
    requires Covers(s) && CategoriesOrdered(s) && Filed(s, e) && e in s.events
    requires e in s.catEvents[s.eventCat[e]] && ListsEvents(s, s.eventCat[e])
    requires s.catEvents[s.eventCat[e]] <= s.events
    ensures Covers(RemoveEvent(s, e)) && CategoriesOrdered(RemoveEvent(s, e))
  {
    var c: Category := s.eventCat[e];
    var t := RemoveEvent(s, e);
    RemoveRenumbered(s.eventOrder[c], s.catEvents[c], s.eventKey, e, s.eventKey - {e});
    forall x | x in t.eventOrder[c] ensures x in t.events {
      assert x in s.catEvents[c] - {e};
    }
    assert t.eventKey.Keys == t.events;
  }

  lemma RemoveEventOwnOrder(s: Contents, e: Event)
    requires Filed(s, e) && e in s.catEvents[s.eventCat[e]] && ListsEvents(s, s.eventCat[e])
    ensures var c := s.eventCat[e]; var t := RemoveEvent(s, e);
      && ListsEvents(t, c)
      && t.eventOrder[c] == Remove(s.eventOrder[c], e)
      && |t.eventOrder[c]| == |s.eventOrder[c]| - 1
  {
    var c: Category := s.eventCat[e];
    RemoveRenumbered(s.eventOrder[c], s.catEvents[c], s.eventKey, e, s.eventKey - {e});
  }

  lemma RemoveEventOtherOrders(s: Contents, e: Event)
    requires Covers(s) && FiledUnderOwner(s) && EventsOrdered(s) && Filed(s, e)
    requires s.eventCat[e] in s.categories && e in s.catEvents[s.eventCat[e]]
    requires Covers(RemoveEvent(s, e))
    ensures forall d :: d in s.categories && d != s.eventCat[e] ==> ListsEvents(RemoveEvent(s, e), d)
  {
    var c: Category := s.eventCat[e];
    var t := RemoveEvent(s, e);
    assert ListsEvents(s, c);
    forall x | x in s.eventKey && x !in s.catEvents[c] ensures x in t.eventKey && t.eventKey[x] == s.eventKey[x] {
      assert x !in t.eventOrder[c];
    }
    OtherListsKept(s, t, c, c);
  }

  // ---------------------------------------------------------------------------
  // moveEvent(_:toNewIndex:)
  // ---------------------------------------------------------------------------

  /** In a consistent store, a position below the event count of its category
      is one `moveEvent` can insert at, and the moved order still lists that
      category's events, each once. */
  lemma MoveEventListing(s: Contents, e: Event, k: nat)
    requires Consistent(s) && e in s.events
    requires Filed(s, e) && k < |s.catEvents[s.eventCat[e]]|
    ensures var c := s.eventCat[e];
      && k <= |Remove(s.eventOrder[c], e)|
      && var m := MoveTo(s.eventOrder[c], e, k);
      && Distinct(m) && Elements(m) == s.catEvents[c]
      && (forall x :: x in m ==> x in s.catEvents[c] && x in s.events)
      && RankedBy(m, Renumbered(s.eventKey, m))
  {
    StoredEventFiled(s, e);
    var c: Category := s.eventCat[e];
    var list := s.eventOrder[c];
    RankedIsDistinct(list, s.eventKey);
    RemoveListing(list, s.catEvents[c], e);
    ListedCount(list, s.catEvents[c]);
    MoveRenumbered(list, s.catEvents[c], s.eventKey, e, k, s.eventKey);
    MoveKeepsDistinct(list, e, k);
  }

  /** Moving an event within its category keeps the store consistent; the
      event ends at position `k` with key `k`, the other events keep their
      relative order, and no event changes category. */
  lemma MoveEventConsistent(s: Contents, e: Event, k: nat)
    requires Consistent(s) && e in s.events
    requires k <= |Remove(s.eventOrder[s.eventCat[e]], e)|
    ensures Filed(s, e)
    ensures var c := s.eventCat[e]; var t := MoveEvent(s, e, k);
      && Consistent(t)
      && t.eventOrder[c][k] == e && t.eventKey[e] == k
      && Remove(t.eventOrder[c], e) == Remove(s.eventOrder[c], e)
      && t.catEvents == s.catEvents
  {
    StoredEventFiled(s, e);
    var t := MoveEvent(s, e, k);
    MoveEventOwnOrder(s, e, k);
    SameLinks(s, t);
    MoveEventOtherOrders(s, e, k);
  }

  lemma MoveEventOwnOrder(s: Contents, e: Event, k: nat)
    requires Covers(s) && CategoriesOrdered(s) && Filed(s, e) && e in s.catEvents[s.eventCat[e]]
    requires ListsEvents(s, s.eventCat[e]) && k <= |Remove(s.eventOrder[s.eventCat[e]], e)|
    ensures var c := s.eventCat[e]; var t := MoveEvent(s, e, k);
      && Covers(t) && CategoriesOrdered(t) && ListsEvents(t, c)
      && t.eventOrder[c][k] == e && t.eventKey[e] == k
      && Remove(t.eventOrder[c], e) == Remove(s.eventOrder[c], e)
      && t.catEvents == s.catEvents
  {
    var c: Category := s.eventCat[e];
    MoveRenumbered(s.eventOrder[c], s.catEvents[c], s.eventKey, e, k, s.eventKey);
    MoveEventKeys(s, e, k);
  }

  /** Moving an event within its category renumbers only events already
      stored, and leaves the category side alone. */
  lemma MoveEventKeys(s: Contents, e: Event, k: nat)
    requires Covers(s) && CategoriesOrdered(s) && Filed(s, e)
    requires ListsEvents(s, s.eventCat[e]) && k <= |Remove(s.eventOrder[s.eventCat[e]], e)|
    ensures var t := MoveEvent(s, e, k); Covers(t) && CategoriesOrdered(t)
  {
    var c: Category := s.eventCat[e];
    var moved := MoveTo(s.eventOrder[c], e, k);
    var t := MoveEvent(s, e, k);
    InsertedMembers(Remove(s.eventOrder[c], e), k, e);
    assert moved == InsertAt(Remove(s.eventOrder[c], e), k, e);
    forall x | x in moved ensures x in s.eventKey {
      if x != e {
        assert x in Remove(s.eventOrder[c], e);
        var i :| 0 <= i < |s.eventOrder[c]| && s.eventOrder[c][i] == x;
      }
    }
    assert t.eventKey.Keys == s.eventKey.Keys;
  }

  lemma MoveEventOtherOrders(s: Contents, e: Event, k: nat)
    requires Covers(s) && FiledUnderOwner(s) && EventsOrdered(s) && Filed(s, e)
    requires s.eventCat[e] in s.categories && k <= |Remove(s.eventOrder[s.eventCat[e]], e)|
    requires Covers(MoveEvent(s, e, k)) && ListsEvents(MoveEvent(s, e, k), s.eventCat[e])
    requires MoveEvent(s, e, k).catEvents == s.catEvents
    ensures forall d :: d in s.categories && d != s.eventCat[e] ==> ListsEvents(MoveEvent(s, e, k), d)
  {
    var c: Category := s.eventCat[e];
    var t := MoveEvent(s, e, k);
    forall x | x in s.eventKey && x !in s.catEvents[c] ensures x in t.eventKey && t.eventKey[x] == s.eventKey[x] {
      assert x !in t.eventOrder[c];
    }
    OtherListsKept(s, t, c, c);
  }

  // ---------------------------------------------------------------------------
  // moveEvent(_:toNewCategory:atIndex:)
  // ---------------------------------------------------------------------------

  /** Moving an event to another category keeps the store consistent: the
      event ends at position `k` of the new category with key `k`, the new
      category's other events keep their relative order, and the old
      category's event order loses exactly that event. */
  lemma TransferEventConsistent(s: Contents, e: Event, to: Category, k: nat)
    requires Consistent(s) && e in s.events && to in s.categories
    requires to != s.eventCat[e] && k <= |s.eventOrder[to]|
    ensures Filed(s, e)
    ensures var from := s.eventCat[e]; var t := TransferEvent(s, e, to, k);
      && Consistent(t)
      && t.eventCat[e] == to
      && t.eventOrder[to][k] == e && t.eventKey[e] == k
      && Remove(t.eventOrder[to], e) == s.eventOrder[to]
      && t.eventOrder[from] == Remove(s.eventOrder[from], e)
  {
    StoredEventFiled(s, e);
    assert ListsEvents(s, to) && s.catEvents[to] <= s.events && e !in s.catEvents[to];
    TransferEventSets(s, e, to, k);
    TransferEventCovers(s, e, to, k);
    TransferEventLinked(s, e, to, k);
    TransferEventDestOrder(s, e, to, k);
    TransferEventSourceOrder(s, e, to, k);
    TransferEventOtherOrders(s, e, to, k);
  }

  /** The event sets after a transfer: `e` leaves the old one and joins the new one. */
  lemma TransferEventSets(s: Contents, e: Event, to: Category, k: nat)
    requires Filed(s, e) && to in s.catEvents && to in s.eventOrder && to != s.eventCat[e]
    requires k <= |s.eventOrder[to]| && e in s.catEvents[s.eventCat[e]] && e !in s.catEvents[to]
    requires ListsEvents(s, s.eventCat[e]) && ListsEvents(s, to)
    ensures var from := s.eventCat[e]; var t := TransferEvent(s, e, to, k);
      && t.catEvents == s.catEvents[to := s.catEvents[to] + {e}][from := s.catEvents[from] - {e}]
      && t.catEvents[from] == s.catEvents[from] - {e} && t.catEvents[to] == s.catEvents[to] + {e}
  {
    var from: Category := s.eventCat[e];
    InsertRenumbered(s.eventOrder[to], s.catEvents[to], s.eventKey, e, k, s.eventKey);
    RemoveRenumbered(s.eventOrder[from], s.catEvents[from], s.eventKey, e, s.eventKey);
  }

  lemma TransferEventCovers(s: Contents, e: Event, to: Category, k: nat)
    requires Covers(s) && CategoriesOrdered(s) && Filed(s, e) && e in s.events
    requires to in s.categories && to != s.eventCat[e] && k <= |s.eventOrder[to]|
    requires e in s.catEvents[s.eventCat[e]] && e !in s.catEvents[to]
    requires ListsEvents(s, s.eventCat[e]) && ListsEvents(s, to)
    requires s.catEvents[s.eventCat[e]] <= s.events && s.catEvents[to] <= s.events
    ensures Covers(TransferEvent(s, e, to, k)) && CategoriesOrdered(TransferEvent(s, e, to, k))
  {
    var from: Category := s.eventCat[e];
    var t := TransferEvent(s, e, to, k);
    var dest := InsertAt(s.eventOrder[to], k, e);
    var rest := Remove(s.eventOrder[from], e);
    TransferEventSets(s, e, to, k);
    forall x | x in dest ensures x in s.events {
      if x != e {
        assert x in s.eventOrder[to];
      }
    }
    forall x | x in rest ensures x in s.events {
      assert x in s.eventOrder[from];
    }
    assert t.eventKey.Keys == t.events;
  }

  lemma TransferEventLinked(s: Contents, e: Event, to: Category, k: nat)
    requires Covers(s) && Linked(s) && Filed(s, e) && e in s.events
    requires to in s.categories && to != s.eventCat[e] && k <= |s.eventOrder[to]|
    requires Covers(TransferEvent(s, e, to, k))
    requires TransferEvent(s, e, to, k).catEvents
               == s.catEvents[to := s.catEvents[to] + {e}][s.eventCat[e] := s.catEvents[s.eventCat[e]] - {e}]
    ensures Linked(TransferEvent(s, e, to, k))
  {
    var from: Category := s.eventCat[e];
    var t := TransferEvent(s, e, to, k);
    var u := s.(events := s.events - {e}, catEvents := s.catEvents[from := s.catEvents[from] - {e}],
                eventKey := s.eventKey - {e}, eventCat := s.eventCat - {e});
    UnfileLinked(s, u, e);
    Refiled(s.events, s.eventCat, s.catEvents, e, from, to);
    FileLinked(u, t, e, to);
  }

  /** Taking `e` out of `from` and putting it back under `to` is re-filing it. */
  lemma Refiled(events: set<Event>, eventCat: map<Event, Category?>, catEvents: map<Category, set<Event>>,
                e: Event, from: Category, to: Category)
    requires e in events && from in catEvents && to in catEvents && from != to
    ensures events == events - {e} + {e}
    ensures eventCat[e := to] == (eventCat - {e})[e := to]
    ensures var u := catEvents[from := catEvents[from] - {e}];
      catEvents[to := catEvents[to] + {e}][from := catEvents[from] - {e}] == u[to := u[to] + {e}]
  {
  }

  lemma TransferEventDestOrder(s: Contents, e: Event, to: Category, k: nat)
    requires Covers(s) && FiledUnderOwner(s) && Filed(s, e)
    requires to in s.categories && to != s.eventCat[e] && k <= |s.eventOrder[to]|
    requires e !in s.catEvents[to] && ListsEvents(s, to) && ListsEvents(s, s.eventCat[e])
    requires TransferEvent(s, e, to, k).catEvents[to] == s.catEvents[to] + {e}
    ensures var t := TransferEvent(s, e, to, k);
      && ListsEvents(t, to)
      && t.eventOrder[to][k] == e && t.eventKey[e] == k
      && Remove(t.eventOrder[to], e) == s.eventOrder[to]
  {
    var from: Category := s.eventCat[e];
    var dest := InsertAt(s.eventOrder[to], k, e);
    var rest := Remove(s.eventOrder[from], e);
    InsertRenumbered(s.eventOrder[to], s.catEvents[to], s.eventKey, e, k, s.eventKey);
    forall x | x in dest ensures x !in rest {
      if x != e {
        assert x in s.catEvents[to] && s.eventCat[x] == to;
        assert x !in s.catEvents[from];
      }
    }
  }

  lemma TransferEventSourceOrder(s: Contents, e: Event, to: Category, k: nat)
    requires Filed(s, e) && to in s.catEvents && to in s.eventOrder && to != s.eventCat[e]
    requires k <= |s.eventOrder[to]| && e in s.catEvents[s.eventCat[e]] && ListsEvents(s, s.eventCat[e])
    requires var from := s.eventCat[e];
      TransferEvent(s, e, to, k).catEvents[from] == s.catEvents[from] - {e}
    ensures var from := s.eventCat[e]; var t := TransferEvent(s, e, to, k);
      && ListsEvents(t, from)
      && t.eventOrder[from] == Remove(s.eventOrder[from], e)
  {
    var from: Category := s.eventCat[e];
    var dest := InsertAt(s.eventOrder[to], k, e);
    RemoveRenumbered(s.eventOrder[from], s.catEvents[from], s.eventKey, e, Renumbered(s.eventKey, dest));
  }

  lemma TransferEventOtherOrders(s: Contents, e: Event, to: Category, k: nat)
    requires Covers(s) && FiledUnderOwner(s) && EventsOrdered(s) && Filed(s, e)
    requires s.eventCat[e] in s.categories && e in s.catEvents[s.eventCat[e]]
    requires to in s.categories && to != s.eventCat[e] && k <= |s.eventOrder[to]|
    requires Covers(TransferEvent(s, e, to, k))
    requires ListsEvents(TransferEvent(s, e, to, k), to) && ListsEvents(TransferEvent(s, e, to, k), s.eventCat[e])
    requires TransferEvent(s, e, to, k).catEvents
               == s.catEvents[to := s.catEvents[to] + {e}][s.eventCat[e] := s.catEvents[s.eventCat[e]] - {e}]
    ensures forall d :: d in s.categories && d != to && d != s.eventCat[e] ==>
      ListsEvents(TransferEvent(s, e, to, k), d)
  {
    var from: Category := s.eventCat[e];
    var t := TransferEvent(s, e, to, k);
    forall x | x in s.eventKey && x !in s.catEvents[to] && x !in s.catEvents[from]
      ensures x in t.eventKey && t.eventKey[x] == s.eventKey[x]
    {
      assert x !in t.catEvents[to] && x !in t.catEvents[from];
      assert x !in t.eventOrder[to] && x !in t.eventOrder[from];
    }
    OtherListsKept(s, t, to, from);
  }

  /** Moving an event to a category keeps the store consistent, by whichever
      branch it takes. */
  lemma MoveEventToCategoryConsistent(s: Contents, e: Event, to: Category, atIndex: Option<int>)
    requires Consistent(s) && e in s.events && to in s.categories
    requires 0 <= atIndex.GetOr(0)
    requires to == s.eventCat[e] ==> atIndex.GetOr(0) <= |Remove(s.eventOrder[to], e)|
    requires to != s.eventCat[e] ==> atIndex.GetOr(0) <= |s.eventOrder[to]|
    ensures Filed(s, e)
    ensures var t := MoveEventToCategory(s, e, to, atIndex);
      && e in t.eventCat && t.eventCat[e] == to
      && to in t.eventOrder && atIndex.GetOr(0) < |t.eventOrder[to]|
      && t.eventOrder[to][atIndex.GetOr(0)] == e
      && Consistent(t)
  {
    StoredEventFiled(s, e);
    if to == s.eventCat[e] {
      MoveEventConsistent(s, e, atIndex.GetOr(0));
    } else {
      TransferEventConsistent(s, e, to, atIndex.GetOr(0));
    }
  }

  // ---------------------------------------------------------------------------
  // Queries
  // ---------------------------------------------------------------------------

  /** `firstEvent`: the head of the event order of the first category in
      `cats` whose event order is not empty; null when there is none. */
  function FirstEventIn(cats: seq<Category>, order: map<Category, seq<Event>>): Event? {
    if cats == [] then null
    else if cats[0] in order && order[cats[0]] != [] then order[cats[0]][0]
    else FirstEventIn(cats[1..], order)
  }

  /** The search stops at the first category with events and returns the head
      of its list; it finds nothing only when every listed category is empty. */
  lemma {:induction false} FirstEventInAt(cats: seq<Category>, order: map<Category, seq<Event>>)
    ensures FirstEventIn(cats, order) == null <==>
      forall i :: 0 <= i < |cats| && cats[i] in order ==> order[cats[i]] == []
    ensures FirstEventIn(cats, order) != null ==>
      exists i :: && 0 <= i < |cats| && cats[i] in order && order[cats[i]] != []
                  && FirstEventIn(cats, order) == order[cats[i]][0]
                  && forall j :: 0 <= j < i && cats[j] in order ==> order[cats[j]] == []
  {
    if cats != [] && !(cats[0] in order && order[cats[0]] != []) {
      var rest := cats[1..];
      FirstEventInAt(rest, order);
      assert forall i :: 0 <= i < |rest| ==> rest[i] == cats[i + 1];
      if FirstEventIn(rest, order) != null {
        var i :| && 0 <= i < |rest| && rest[i] in order && order[rest[i]] != []
                 && FirstEventIn(rest, order) == order[rest[i]][0]
                 && forall j :: 0 <= j < i && rest[j] in order ==> order[rest[j]] == [];
        assert forall j :: 0 <= j < i + 1 && cats[j] in order ==> order[cats[j]] == [] by {
          forall j | 0 <= j < i + 1 && cats[j] in order ensures order[cats[j]] == [] {
            if j > 0 { assert cats[j] == rest[j - 1]; }
          }
        }
      } else {
        forall i | 0 <= i < |cats| && cats[i] in order ensures order[cats[i]] == [] {
          if i > 0 { assert cats[i] == rest[i - 1]; }
        }
      }
    }
  }

  /** In a consistent store, the first event is null exactly when no event is
      stored; otherwise it is a stored event at the head of its category (key
      0), and every category ordered before that one holds no events. */
  lemma FirstEventOfStore(s: Contents)
    requires Consistent(s)
    ensures var r := FirstEventIn(s.catOrder, s.eventOrder);
      && (r == null <==> s.events == {})
      && (r != null ==> && r in s.events && s.eventKey[r] == 0
                        && s.eventCat[r] in s.categories
                        && forall c :: c in s.categories && s.catKey[c] < s.catKey[s.eventCat[r]]
                                       ==> s.catEvents[c] == {})
  {
    var r := FirstEventIn(s.catOrder, s.eventOrder);
    FirstEventInAt(s.catOrder, s.eventOrder);
    if r == null {
      forall c | c in s.categories ensures s.catEvents[c] == {} {
        assert c in s.catOrder;
        var i :| 0 <= i < |s.catOrder| && s.catOrder[i] == c;
        assert ListsEvents(s, c);
      }
    } else {
      var i :| && 0 <= i < |s.catOrder| && s.catOrder[i] in s.eventOrder && s.eventOrder[s.catOrder[i]] != []
               && r == s.eventOrder[s.catOrder[i]][0]
               && forall j :: 0 <= j < i && s.catOrder[j] in s.eventOrder ==> s.eventOrder[s.catOrder[j]] == [];
      var c := s.catOrder[i];
      assert c in s.categories && ListsEvents(s, c);
      assert r in s.catEvents[c];
      forall d | d in s.categories && s.catKey[d] < s.catKey[s.eventCat[r]] ensures s.catEvents[d] == {} {
        assert d in s.catOrder;
        var j :| 0 <= j < |s.catOrder| && s.catOrder[j] == d;
        assert ListsEvents(s, d);
      }
    }
  }

  /** The members of `due` that occur in `list`. */
  function ListedIn(list: seq<Event>, due: set<Event>): set<Event> {
    set e | e in list && e in due
  }

  /** Extending a list by an element it does not yet hold adds one member of
      `due` when that element is one, and none otherwise. */
  lemma ListedInStep(list: seq<Event>, j: nat, due: set<Event>)
    requires j < |list| && list[j] !in list[..j]
    ensures |ListedIn(list[..j + 1], due)| == |ListedIn(list[..j], due)| + if list[j] in due then 1 else 0
  {
    assert list[..j + 1] == list[..j] + [list[j]];
    if list[j] in due {
      assert ListedIn(list[..j + 1], due) == ListedIn(list[..j], due) + {list[j]};
    } else {
      assert ListedIn(list[..j + 1], due) == ListedIn(list[..j], due);
    }
  }

  /** The members of `due` that are stored and filed under one of the first
      `i` categories of the category order. */
  function FiledBelow(s: Contents, i: int, due: set<Event>): set<Event> {
    set e | e in due && e in s.eventCat && s.eventCat[e] in s.catKey && s.catKey[s.eventCat[e]] < i
  }

  /** Counting the list of the category at position `i` adds exactly the
      members of `due` it lists: in a consistent store they are the ones filed
      under it, and none of them was counted before. */
  lemma FiledBelowStep(s: Contents, i: nat, due: set<Event>)
    requires Consistent(s) && i < |s.catOrder|
    ensures s.catOrder[i] in s.categories
    ensures |FiledBelow(s, i + 1, due)| == |FiledBelow(s, i, due)| + |ListedIn(s.eventOrder[s.catOrder[i]], due)|
  {
    var c := s.catOrder[i];
    assert c in s.categories && ListsEvents(s, c);
    var here := ListedIn(s.eventOrder[c], due);
    forall e | e in here ensures e in s.eventCat && s.eventCat[e] == c {
      assert e in s.catEvents[c];
    }
    forall e | e in due && e in s.eventCat && s.eventCat[e] in s.catKey && s.catKey[s.eventCat[e]] == i
      ensures e in here
    {
      var d := s.eventCat[e];
      assert d in s.catOrder;
      var j :| 0 <= j < |s.catOrder| && s.catOrder[j] == d;
      assert e in s.catEvents[d];
    }
    assert FiledBelow(s, i + 1, due) == FiledBelow(s, i, due) + here;
    assert FiledBelow(s, i, due) * here == {};
  }

  /** Walking every category in order reaches every stored member of `due`. */
  lemma FiledUnderAll(s: Contents, due: set<Event>)
    requires Consistent(s)
    ensures FiledBelow(s, |s.catOrder|, due) == due * s.events
  {
    forall e | e in due && e in s.events ensures s.catKey[s.eventCat[e]] < |s.catOrder| {
      var d := s.eventCat[e];
      assert d in s.catOrder;
      var j :| 0 <= j < |s.catOrder| && s.catOrder[j] == d;
    }
  }
}
