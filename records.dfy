/** The two persistent record types, Category and Event.

    Both are objects whose fields are rewritten in place by the model. The
    Category-to-Event relationship is two-sided: `Category.events` and
    `Event.category` are kept as inverses of each other (by the object store in
    the app, by the model's own assignments here). */
module Records {
  import opened Optional
  import opened Ordering
  import opened Dates

  /** The name `willSave` gives a Category that has none. */
  const DefaultCategoryName: string := "New Category"

  /** The title `willSave` gives an Event that has none. */
  const DefaultEventTitle: string := "New Event"

  /** The order key a record has between creation and being given its slot. */
  const UnassignedIndex: int := -1

  class Category {
    var name: Option<string>
    var orderIndex: int
    /** The to-many relationship. A nil relationship reads as the empty set. */
    var events: set<Event>

    /** A new record: named, holding no events, not yet given an order slot. */
    constructor (name: string)
      ensures this.name == Some(name) && orderIndex == UnassignedIndex && events == {}
    {
      this.name := Some(name);
      orderIndex := UnassignedIndex;
      events := {};
    }

    /** Called by the store before saving: a nil or empty name becomes the default name. */
    method WillSave()
      modifies this`name
      ensures old(name).Some? && old(name).value != "" ==> name == old(name)
      ensures old(name).None? || old(name) == Some("") ==> name == Some(DefaultCategoryName)
      ensures name.Some? && name.value != ""
    {
      if name.None? || name == Some("") {
        name := Some(DefaultCategoryName);
      }
    }

    /** The category's events as a list sorted by their order keys: every event
        of the relationship exactly once, keys never decreasing. */
    method OrderedEvents() returns (r: seq<Event>)
      ensures Lists(r, events) && |r| == |events|
      ensures forall i, j :: 0 <= i < j < |r| ==> r[i].orderIndex <= r[j].orderIndex
    {
      var key := map e | e in events :: e.orderIndex;
      r := SortByKey(events, key);
      forall i | 0 <= i < |r| ensures r[i] in events && key[r[i]] == r[i].orderIndex {
        assert r[i] in r;
      }
    }
  }

  class Event {
    var title: Option<string>
    var notes: Option<string>
    var lastDate: Option<Date>
    var nextDate: Option<Date>
    var orderIndex: int
    /** The to-one side of the relationship; null once the event is removed. */
    var category: Category?

    /** A new record: titled, no notes or dates, in no category, not yet given an order slot. */
    constructor (title: string)
      ensures this.title == Some(title) && orderIndex == UnassignedIndex
      ensures notes.None? && lastDate.None? && nextDate.None? && category == null
    {
      this.title := Some(title);
      notes, lastDate, nextDate := None, None, None;
      orderIndex := UnassignedIndex;
      category := null;
    }

    /** Called by the store before saving: a nil or empty title becomes the default title. */
    method WillSave()
      modifies this`title
      ensures old(title).Some? && old(title).value != "" ==> title == old(title)
      ensures old(title).None? || old(title) == Some("") ==> title == Some(DefaultEventTitle)
      ensures title.Some? && title.value != ""
    {
      if title.None? || title == Some("") {
        title := Some(DefaultEventTitle);
      }
    }

    /** Whether the event is due within `numDays` days after the end of today:
        it has a next date, has not been done on or after that date, and the
        next date falls before the end of today shifted by `numDays` days. */
    function IsDueWithin(endOfToday: Date, numDays: int): bool
      reads this`lastDate, this`nextDate
    {
      match nextDate
      case None => false
      case Some(due) =>
        match lastDate
        case None => true
        case Some(last) =>
          if last >= due then false
          else due < AddDays(endOfToday, numDays)
    }

    /** Due today or overdue. */
    function IsDue(endOfToday: Date): bool
      reads this`lastDate, this`nextDate
    {
      IsDueWithin(endOfToday, 0)
    }
  }

  /** Each case of the due rule, stated separately. */
  lemma IsDueCases(e: Event, endOfToday: Date, numDays: int)
    ensures e.nextDate.None? ==> !e.IsDueWithin(endOfToday, numDays)
    ensures e.nextDate.Some? && e.lastDate.None? ==> e.IsDueWithin(endOfToday, numDays)
    ensures e.nextDate.Some? && e.lastDate.Some? && e.lastDate.value >= e.nextDate.value
            ==> !e.IsDueWithin(endOfToday, numDays)
    ensures e.nextDate.Some? && e.lastDate.Some? && e.lastDate.value < e.nextDate.value
            ==> (e.IsDueWithin(endOfToday, numDays)
                 <==> e.nextDate.value < endOfToday + numDays * SecondsPerDay)
  {
  }

  /** A longer horizon never makes a due event not due. */
  lemma IsDueMonotone(e: Event, endOfToday: Date, m: int, n: int)
    requires m <= n
    ensures e.IsDueWithin(endOfToday, m) ==> e.IsDueWithin(endOfToday, n)
  {
    AddDaysMonotone(endOfToday, m, n);
  }

  /** `isDue()` is the zero-day horizon: an event due today or overdue is due
      within any horizon of zero or more days, and an event due within a
      horizon that ends today or earlier is due today. */
  lemma IsDueWithinAnyHorizon(e: Event, endOfToday: Date, n: int)
    ensures n >= 0 && e.IsDue(endOfToday) ==> e.IsDueWithin(endOfToday, n)
    ensures n <= 0 && e.IsDueWithin(endOfToday, n) ==> e.IsDue(endOfToday)
  {
    if n >= 0 {
      IsDueMonotone(e, endOfToday, 0, n);
    } else {
      IsDueMonotone(e, endOfToday, n, 0);
    }
  }

  /** Whatever the horizon, a due event has a next date that its last date does not reach. */
  lemma DueHasOpenNextDate(e: Event, endOfToday: Date, numDays: int)
    requires e.IsDueWithin(endOfToday, numDays)
    ensures e.nextDate.Some?
    ensures e.lastDate.None? || e.lastDate.value < e.nextDate.value
  {
  }
}
