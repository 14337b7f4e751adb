/** The data generator: the help, test and screenshot categories the app can
    load from a bundled JSON data file.

    The data file is an array of groups `{ "category": { "name": … },
    "events": [ { "title", "notes", "lastDateOffset", "nextDateOffset" } … ] }`.
    Reading the file is not modelled: the JSON value it holds is a parameter,
    and so is the instant "now" the day offsets are counted from.

    The generator is specified twice: by the records the file describes (pure
    functions over the JSON value, with lemmas), and by the method that adds
    them to the model, proved to append exactly those records to it. */
module DataGenerator {
  import opened Optional
  import opened Ordering
  import opened Dates
  import opened Records
  import opened Store
  import opened ReminderModel

  /** A JSON value as the platform's JSON reader delivers it. Numbers are
      whole numbers here. */
  datatype Json =
    | Null
    | Bool(b: bool)
    | Number(n: int)
    | Str(s: string)
    | Array(items: seq<Json>)
    | Object(fields: map<string, Json>)

  /** An event the data file describes, with its day offsets resolved to dates. */
  datatype EventRecord = EventRecord(title: string, notes: string, lastDate: Option<Date>, nextDate: Option<Date>)

  /** A category the data file describes, with the events it is given, in order. */
  datatype CategoryRecord = CategoryRecord(name: string, events: seq<EventRecord>)

  // ---------------------------------------------------------------------------
  // Casts of the JSON value
  // ---------------------------------------------------------------------------

  /** The dictionaries of an array all of whose elements are dictionaries;
      nothing as soon as one element is not. */
  function Dictionaries(items: seq<Json>): Option<seq<map<string, Json>>> {
    if items == [] then Some([])
    else if !items[0].Object? then None
    else match Dictionaries(items[1..])
      case None => None
      case Some(rest) => Some([items[0].fields] + rest)
  }

  /** `as? [[String: Any]]`: the data as a list of dictionaries, if it is one. */
  function AsDictionaryList(data: Json): Option<seq<map<string, Json>>> {
    if data.Array? then Dictionaries(data.items) else None
  }

  /** `as? [String: String]`: a dictionary all of whose values are strings. */
  function AsStringDictionary(j: Json): Option<map<string, string>> {
    if j.Object? && forall k :: k in j.fields ==> j.fields[k].Str? then
      Some(map k | k in j.fields :: j.fields[k].s)
    else None
  }

  /** The name in the group's "category" block, when that block holds
      strings only and has one. */
  function CategoryName(group: map<string, Json>): Option<string> {
    if "category" !in group then None
    else match AsStringDictionary(group["category"])
      case None => None
      case Some(block) => if "name" in block then Some(block["name"]) else None
  }

  /** `as? [Any]` on the group's "events" entry. */
  function EventList(group: map<string, Json>): Option<seq<Json>> {
    if "events" in group && group["events"].Array? then Some(group["events"].items) else None
  }

  /** `as? String ?? ""`. */
  function StringField(fields: map<string, Json>, key: string): string {
    if key in fields && fields[key].Str? then fields[key].s else ""
  }

  /** `as? Int`. */
  function IntField(fields: map<string, Json>, key: string): Option<int> {
    if key in fields && fields[key].Number? then Some(fields[key].n) else None
  }

  /** `nowOffsetByDays`: no date without an offset; otherwise `now` moved by
      that many days (back in time for a negative offset). */
  function NowOffsetByDays(days: Option<int>, now: Date): Option<Date> {
    match days
    case None => None
    case Some(n) => Some(AddDays(now, n))
  }

  /** The list holding the value of `o`, if any. */
  function Found<T>(o: Option<T>): seq<T> {
    if o.Some? then [o.value] else []
  }

  // ---------------------------------------------------------------------------
  // The records the data file describes
  // ---------------------------------------------------------------------------

  /** The event an event block describes: none unless the block is a
      dictionary with a non-blank title. */
  function EventOf(block: Json, now: Date): Option<EventRecord> {
    if !block.Object? then None
    else
      var title := StringField(block.fields, "title");
      if title == "" then None
      else Some(EventRecord(title, StringField(block.fields, "notes"),
                            NowOffsetByDays(IntField(block.fields, "lastDateOffset"), now),
                            NowOffsetByDays(IntField(block.fields, "nextDateOffset"), now)))
  }

  /** The events a list of event blocks describes, in list order. */
  function EventRecords(items: seq<Json>, now: Date): (r: seq<EventRecord>)
    ensures |r| <= |items|
    ensures forall k :: 0 <= k < |r| ==> r[k].title != ""
  {
    if items == [] then []
    else EventRecords(items[..|items| - 1], now) + Found(EventOf(items[|items| - 1], now))
  }

  /** The category a group describes: none unless its category block has a
      non-blank name; no events when the group has no event list. */
  function GroupRecord(group: map<string, Json>, now: Date): Option<CategoryRecord> {
    var name := CategoryName(group);
    if name.None? || |name.value| == 0 then None
    else
      var events := match EventList(group)
        case None => []
        case Some(items) => EventRecords(items, now);
      Some(CategoryRecord(name.value, events))
  }

  /** The categories a list of groups describes, in list order. */
  function CategoryRecords(groups: seq<map<string, Json>>, now: Date): (r: seq<CategoryRecord>)
    ensures |r| <= |groups|
    ensures forall k :: 0 <= k < |r| ==> r[k].name != "" && forall j :: 0 <= j < |r[k].events| ==> r[k].events[j].title != ""
  {
    if groups == [] then []
    else CategoryRecords(groups[..|groups| - 1], now) + Found(GroupRecord(groups[|groups| - 1], now))
  }

  /** What the data file describes: nothing unless it is a list of dictionaries. */
  function RecordsFromJson(data: Json, now: Date): seq<CategoryRecord> {
    match AsDictionaryList(data)
    case None => []
    case Some(groups) => CategoryRecords(groups, now)
  }

  // ---------------------------------------------------------------------------
  // Properties of the records
  // ---------------------------------------------------------------------------

  /** The list cast succeeds exactly on arrays of dictionaries, and keeps
      every dictionary in place. */
  lemma {:induction false} DictionariesExact(items: seq<Json>)
    ensures Dictionaries(items).Some? <==> forall i :: 0 <= i < |items| ==> items[i].Object?
    ensures Dictionaries(items).Some? ==>
      |Dictionaries(items).value| == |items| &&
      forall i :: 0 <= i < |items| ==> Dictionaries(items).value[i] == items[i].fields
  {
    if items != [] {
      DictionariesExact(items[1..]);
      if !items[0].Object? {
        assert !(forall i :: 0 <= i < |items| ==> items[i].Object?) by {
          assert !items[0].Object?;
        }
      } else if Dictionaries(items[1..]).None? {
        var i :| 0 <= i < |items[1..]| && !items[1..][i].Object?;
        assert !items[i + 1].Object?;
      } else {
        forall i | 0 <= i < |items| ensures items[i].Object? {
          if i > 0 { assert items[i] == items[1..][i - 1]; }
        }
      }
    }
  }

  /** All or nothing: data that is not an array of dictionaries describes
      no category at all, however well formed some of its groups are. */
  lemma MalformedDataDescribesNothing(data: Json, now: Date)
    ensures (!data.Array? || exists i :: 0 <= i < |data.items| && !data.items[i].Object?) ==> RecordsFromJson(data, now) == []
  {
    if data.Array? {
      DictionariesExact(data.items);
    }
  }

  /** A day offset read back from the date it gives: whole days from `now`,
      exactly the offset; no offset, no date. */
  lemma NowOffsetRoundTrip(days: Option<int>, now: Date)
    ensures NowOffsetByDays(days, now).None? <==> days.None?
    ensures days.Some? ==> (NowOffsetByDays(days, now).value - now) % SecondsPerDay == 0
    ensures days.Some? ==> (NowOffsetByDays(days, now).value - now) / SecondsPerDay == days.value
  {
    if days.Some? {
      var d := NowOffsetByDays(days, now).value;
      assert d - now == days.value * SecondsPerDay;
    }
  }

  /** Larger offsets give later dates. */
  lemma NowOffsetMonotone(m: int, n: int, now: Date)
    requires m <= n
    ensures NowOffsetByDays(Some(m), now).value <= NowOffsetByDays(Some(n), now).value
  {
    AddDaysMonotone(now, m, n);
  }

  /** An event block gives an event exactly when it is a dictionary whose
      "title" is a non-blank string; the event then carries that title, the
      "notes" string (blank when missing or not a string), and a date for
      each whole-number day offset present. */
  lemma EventOfExact(block: Json, now: Date)
    ensures EventOf(block, now).Some? <==>
      block.Object? && "title" in block.fields && block.fields["title"].Str? && block.fields["title"].s != ""
    ensures EventOf(block, now).Some? ==>
      var e := EventOf(block, now).value;
      && Some(e.title) == (if block.fields["title"].Str? then Some(block.fields["title"].s) else None)
      && (e.notes != "" ==> "notes" in block.fields && block.fields["notes"] == Str(e.notes))
      && (e.lastDate.Some? <==> "lastDateOffset" in block.fields && block.fields["lastDateOffset"].Number?)
      && (e.nextDate.Some? <==> "nextDateOffset" in block.fields && block.fields["nextDateOffset"].Number?)
  {
  }

  /** Loading two lists of event blocks one after the other gives the events
      of the first, then those of the second. */
  lemma {:induction false} EventRecordsAppend(a: seq<Json>, b: seq<Json>, now: Date)
    ensures EventRecords(a + b, now) == EventRecords(a, now) + EventRecords(b, now)
    decreases |b|
  {
    if b != [] {
      var b' := b[..|b| - 1];
      assert (a + b)[..|a + b| - 1] == a + b';
      EventRecordsAppend(a, b', now);
    } else {
      assert a + b == a;
    }
  }

  /** No block is dropped exactly when every block describes an event, and
      then the events are those of the blocks, position by position. */
  lemma {:induction false} EventRecordsKeepAll(items: seq<Json>, now: Date)
    ensures |EventRecords(items, now)| == |items| <==> forall i :: 0 <= i < |items| ==> EventOf(items[i], now).Some?
    ensures |EventRecords(items, now)| == |items| ==>
      forall i :: 0 <= i < |items| ==> EventRecords(items, now)[i] == EventOf(items[i], now).value
  {
    if items != [] {
      var init := items[..|items| - 1];
      EventRecordsKeepAll(init, now);
      if EventOf(items[|items| - 1], now).Some? {
        forall i | 0 <= i < |init| ensures init[i] == items[i] { }
      } else {
        assert |EventRecords(items, now)| <= |init|;
      }
    }
  }

  /** Loading two lists of groups one after the other gives the categories
      of the first, then those of the second. */
  lemma {:induction false} CategoryRecordsAppend(a: seq<map<string, Json>>, b: seq<map<string, Json>>, now: Date)
    ensures CategoryRecords(a + b, now) == CategoryRecords(a, now) + CategoryRecords(b, now)
    decreases |b|
  {
    if b != [] {
      var b' := b[..|b| - 1];
      assert (a + b)[..|a + b| - 1] == a + b';
      CategoryRecordsAppend(a, b', now);
    } else {
      assert a + b == a;
    }
  }

  /** A group whose category name is present and not blank. */
  ghost predicate Named(group: map<string, Json>) {
    CategoryName(group).Some? && CategoryName(group).value != ""
  }

  /** No group is ignored exactly when every group has a non-blank category
      name, and then the categories are those of the groups, in order. */
  lemma CategoryRecordsKeepAll(groups: seq<map<string, Json>>, now: Date)
    ensures |CategoryRecords(groups, now)| == |groups| <==>
      forall i :: 0 <= i < |groups| ==> CategoryName(groups[i]).Some? && CategoryName(groups[i]).value != ""
    ensures |CategoryRecords(groups, now)| == |groups| ==>
      forall i :: 0 <= i < |groups| ==> CategoryRecords(groups, now)[i].name == CategoryName(groups[i]).value
  {
    KeptExactlyWhenNamed(groups, now);
    if |CategoryRecords(groups, now)| == |groups| {
      KeptNames(groups, now);
    }
  }

  /** The records keep one category per group exactly when every group is named. */
  lemma KeptExactlyWhenNamed(groups: seq<map<string, Json>>, now: Date)
    ensures |CategoryRecords(groups, now)| == |groups| <==> forall i :: 0 <= i < |groups| ==> Named(groups[i])
  {
    if forall i :: 0 <= i < |groups| ==> Named(groups[i]) {
      AllNamedKept(groups, now);
    } else {
      var k :| 0 <= k < |groups| && !Named(groups[k]);
      UnnamedDropped(groups, now, k);
    }
  }

  /** When every group is named, every group gives a category. */
  lemma {:induction false} AllNamedKept(groups: seq<map<string, Json>>, now: Date)
    requires forall i :: 0 <= i < |groups| ==> Named(groups[i])
    ensures |CategoryRecords(groups, now)| == |groups|
  {
    if groups != [] {
      var init := groups[..|groups| - 1];
      forall i | 0 <= i < |init| ensures Named(init[i]) {
        assert init[i] == groups[i];
      }
      AllNamedKept(init, now);
      CountStep(groups, now);
    }
  }

  /** A group without a name gives no category, so fewer categories than groups. */
  lemma {:induction false} UnnamedDropped(groups: seq<map<string, Json>>, now: Date, k: int)
    requires 0 <= k < |groups| && !Named(groups[k])
    ensures |CategoryRecords(groups, now)| < |groups|
  {
    var init := groups[..|groups| - 1];
    CountStep(groups, now);
    if k < |init| {
      assert init[k] == groups[k];
      UnnamedDropped(init, now, k);
    } else {
      assert |CategoryRecords(init, now)| <= |init|;
    }
  }

  /** One more group adds one category when it is named and none otherwise. */
  lemma CountStep(groups: seq<map<string, Json>>, now: Date)
    requires groups != []
    ensures |CategoryRecords(groups, now)| ==
      |CategoryRecords(groups[..|groups| - 1], now)| + if Named(groups[|groups| - 1]) then 1 else 0
  {
  }

  /** When every group is kept, the i-th category carries the i-th group's name. */
  lemma {:induction false} KeptNames(groups: seq<map<string, Json>>, now: Date)
    requires |CategoryRecords(groups, now)| == |groups|
    ensures forall i :: 0 <= i < |groups| ==> Named(groups[i]) && CategoryRecords(groups, now)[i].name == CategoryName(groups[i]).value
  {
    if groups != [] {
      var init, last := groups[..|groups| - 1], groups[|groups| - 1];
      var before := CategoryRecords(init, now);
      var all := CategoryRecords(groups, now);
      assert all == before + Found(GroupRecord(last, now));
      assert |before| == |init| && GroupRecord(last, now).Some?;
      KeptNames(init, now);
      forall i | 0 <= i < |groups| ensures Named(groups[i]) && all[i].name == CategoryName(groups[i]).value {
        if i < |init| {
          assert all[i] == before[i] && init[i] == groups[i];
        } else {
          assert all[i] == GroupRecord(last, now).value;
        }
      }
    }
  }

  /** A group with a usable name but no event list still describes its
      category, with no events. */
  lemma GroupWithoutEvents(group: map<string, Json>, now: Date)
    requires CategoryName(group).Some? && CategoryName(group).value != ""
    requires "events" !in group || !group["events"].Array?
    ensures GroupRecord(group, now) == Some(CategoryRecord(CategoryName(group).value, []))
  {
  }

  // ---------------------------------------------------------------------------
  // Adding the records to the model
  // ---------------------------------------------------------------------------

  /** The stored event `e` carries what record `r` describes. */
  ghost predicate EventShows(e: Event, r: EventRecord)
    reads e`title, e`notes, e`lastDate, e`nextDate
  {
    e.title == Some(r.title) && e.notes == Some(r.notes) && e.lastDate == r.lastDate && e.nextDate == r.nextDate
  }

  /** The stored events `list` carry the records `rs`, position by position. */
  ghost predicate EventsShow(list: seq<Event>, rs: seq<EventRecord>)
    reads list`title, list`notes, list`lastDate, list`nextDate
  {
    |list| == |rs| && forall j :: 0 <= j < |list| ==> EventShows(list[j], rs[j])
  }

  /** Given the event orders `order` over the events `evs`, the categories
      `cats` carry the records `records`, in order: each its name, and its
      events in its event order. */
  ghost predicate Shown(order: map<Category, seq<Event>>, evs: set<Event>, cats: seq<Category>, records: seq<CategoryRecord>)
    reads cats`name, evs`title, evs`notes, evs`lastDate, evs`nextDate
  {
    |cats| == |records| &&
    forall i :: 0 <= i < |cats| ==>
      && cats[i].name == Some(records[i].name) && cats[i] in order
      && (forall e :: e in order[cats[i]] ==> e in evs)
      && EventsShow(order[cats[i]], records[i].events)
  }

  /** The categories `cats` of `m` carry the records `records`, in order. */
  ghost predicate Built(m: Model, cats: seq<Category>, records: seq<CategoryRecord>)
    reads m, m.categories, m.events
  {
    (forall i :: 0 <= i < |cats| ==> cats[i] in m.categories) && Shown(m.st.eventOrder, m.events, cats, records)
  }

  /** What categories show stays shown when their names and the fields of
      the events are kept, their event orders are kept and more events are
      stored. */
  twostate lemma ShownKept(built: (Model, seq<Category>, seq<CategoryRecord>))
    requires var (m, cats, records) := built;
      && old(Shown(m.st.eventOrder, m.events, cats, records)) && old(m.events) <= m.events
      && unchanged(cats`name) && unchanged(old(m.events))
      && forall c :: c in old(m.st.eventOrder) ==> c in m.st.eventOrder && m.st.eventOrder[c] == old(m.st.eventOrder[c])
    ensures Shown(built.0.st.eventOrder, built.0.events, built.1, built.2)
  {
    var (m, cats, records) := built;
    forall i | 0 <= i < |cats|
      ensures EventsShow(m.st.eventOrder[cats[i]], records[i].events)
    {
      assert m.st.eventOrder[cats[i]] == old(m.st.eventOrder[cats[i]]);
      assert old(EventsShow(m.st.eventOrder[cats[i]], records[i].events));
    }
  }

  /** Two runs of shown categories make one. */
  lemma ShownAppend(order: map<Category, seq<Event>>, evs: set<Event>, cats: seq<Category>, records: seq<CategoryRecord>,
                    more: seq<Category>, moreRecords: seq<CategoryRecord>)
    requires Shown(order, evs, cats, records) && Shown(order, evs, more, moreRecords)
    ensures Shown(order, evs, cats + more, records + moreRecords)
  {
    forall i | 0 <= i < |cats + more|
      ensures var c, r := (cats + more)[i], (records + moreRecords)[i];
        && c.name == Some(r.name) && c in order
        && (forall e :: e in order[c] ==> e in evs)
        && EventsShow(order[c], r.events)
    {
      if i >= |cats| {
        assert (cats + more)[i] == more[i - |cats|];
        assert (records + moreRecords)[i] == moreRecords[i - |records|];
      }
    }
  }

  /** `createRecordsFromJsonData`: every category the data file describes is
      appended to the category order with its events, in file order; the
      categories already there keep their events, and the model stays valid. */
  method CreateRecordsFromJsonData(data: Json, m: Model, now: Date) returns (ghost created: seq<Category>)
    requires m.Valid()
    modifies m, m.categories`orderIndex
    ensures m.Valid()
    ensures m.st.catOrder == old(m.st.catOrder) + created
    ensures Built(m, created, RecordsFromJson(data, now))
    ensures forall c :: c in old(m.st.eventOrder) ==> c in m.st.eventOrder && m.st.eventOrder[c] == old(m.st.eventOrder[c])
  {
    created := [];
    var list := AsDictionaryList(data);
    if list.Some? {
      var groups := list.value;
      var i := 0;
      while i < |groups|
        invariant 0 <= i <= |groups|
        invariant m.Valid() && m.st.catOrder == old(m.st.catOrder) + created
        invariant Built(m, created, CategoryRecords(groups[..i], now))
        invariant forall c :: c in old(m.st.eventOrder) ==> c in m.st.eventOrder && m.st.eventOrder[c] == old(m.st.eventOrder[c])
        invariant forall c :: c in m.categories ==> c in old(m.categories) || fresh(c)
      {
        CategoryRecordsStep(groups, i, now);
        created := AddGroup(m, groups[i], now, old(m.st.catOrder), created, CategoryRecords(groups[..i], now));
        i := i + 1;
      }
      assert groups[..i] == groups;
    }
  }

  /** One more group adds the category it describes, if any, at the end. */
  lemma CategoryRecordsStep(groups: seq<map<string, Json>>, i: nat, now: Date)
    requires i < |groups|
    ensures CategoryRecords(groups[..i + 1], now) == CategoryRecords(groups[..i], now) + Found(GroupRecord(groups[i], now))
  {
    assert groups[..i + 1][..i] == groups[..i];
  }

  /** One group of the data file: a category with a non-blank name is
      appended to the category order, after the categories `created` from
      the groups before it, and given the group's events; any other group
      adds nothing. */
  method AddGroup(m: Model, group: map<string, Json>, now: Date, ghost before: seq<Category>,
                  ghost created: seq<Category>, ghost recs: seq<CategoryRecord>)
    returns (ghost created': seq<Category>)
    requires m.Valid() && m.st.catOrder == before + created && Built(m, created, recs)
    modifies m, m.categories`orderIndex
    ensures m.Valid() && m.st.catOrder == before + created'
    ensures Built(m, created', recs + Found(GroupRecord(group, now)))
    ensures forall c :: c in old(m.st.eventOrder) ==> c in m.st.eventOrder && m.st.eventOrder[c] == old(m.st.eventOrder[c])
    ensures forall c :: c in m.categories ==> c in old(m.categories) || fresh(c)
  {
    var name := CategoryName(group);
    if name.Some? && |name.value| > 0 {
      created' := AddNamedGroupAfter(m, group, name.value, now, before, created, recs);
    } else {
      assert recs + Found(GroupRecord(group, now)) == recs;
      created' := created;
    }
  }

  /** A group with a non-blank name, after the categories `created` from the
      groups before it. */
  method AddNamedGroupAfter(m: Model, group: map<string, Json>, name: string, now: Date, ghost before: seq<Category>,
                            ghost created: seq<Category>, ghost recs: seq<CategoryRecord>)
    returns (ghost created': seq<Category>)
    requires m.Valid() && m.st.catOrder == before + created && Built(m, created, recs)
    requires CategoryName(group) == Some(name) && name != ""
    modifies m, m.categories`orderIndex
    ensures m.Valid() && m.st.catOrder == before + created'
    ensures Built(m, created', recs + Found(GroupRecord(group, now)))
    ensures forall c :: c in old(m.st.eventOrder) ==> c in m.st.eventOrder && m.st.eventOrder[c] == old(m.st.eventOrder[c])
    ensures forall c :: c in m.categories ==> c in old(m.categories) || fresh(c)
  {
    var c := AddNamedGroupKeeping(m, group, name, now, created, recs);
    ShownAppend(m.st.eventOrder, m.events, created, recs, [c], Found(GroupRecord(group, now)));
    AppendAssoc(before, created, [c]);
    created' := created + [c];
  }

  /** A group with a non-blank name added while the categories `created`
      keep showing `recs`. */
  method AddNamedGroupKeeping(m: Model, group: map<string, Json>, name: string, now: Date,
                              ghost created: seq<Category>, ghost recs: seq<CategoryRecord>) returns (c: Category)
    requires m.Valid() && Built(m, created, recs) && CategoryName(group) == Some(name) && name != ""
    modifies m, m.categories`orderIndex
    ensures m.Valid() && fresh(c) && m.categories == old(m.categories) + {c}
    ensures m.st.catOrder == old(m.st.catOrder) + [c]
    ensures Shown(m.st.eventOrder, m.events, created, recs)
    ensures Shown(m.st.eventOrder, m.events, [c], Found(GroupRecord(group, now)))
    ensures forall d :: d in old(m.st.eventOrder) ==> d in m.st.eventOrder && m.st.eventOrder[d] == old(m.st.eventOrder[d])
  {
    c := AddNamedGroup(m, group, name, now);
    ShownKept((m, created, recs));
  }

  /** A group with a non-blank name: its category is appended to the
      category order and given the group's events. */
  method AddNamedGroup(m: Model, group: map<string, Json>, name: string, now: Date) returns (c: Category)
    requires m.Valid() && CategoryName(group) == Some(name) && name != ""
    modifies m, m.categories`orderIndex
    ensures m.Valid() && fresh(c) && m.categories == old(m.categories) + {c} && old(m.events) <= m.events
    ensures m.st.catOrder == old(m.st.catOrder) + [c]
    ensures Shown(m.st.eventOrder, m.events, [c], Found(GroupRecord(group, now)))
    ensures forall d :: d in old(m.st.eventOrder) ==> d in m.st.eventOrder && m.st.eventOrder[d] == old(m.st.eventOrder[d])
    ensures unchanged(old(m.events))
  {
    c := AppendCategory(m, name);
    ghost var added := FillCategory(m, c, group, name, now);
  }

  /** The events of a named group, given to its new, still empty category. */
  method FillCategory(m: Model, c: Category, group: map<string, Json>, name: string, now: Date)
    returns (ghost added: seq<Event>)
    requires m.Valid() && c in m.categories && m.st.eventOrder[c] == []
    requires c.name == Some(name) && CategoryName(group) == Some(name) && name != ""
    modifies m, c`events
    ensures m.Valid() && m.categories == old(m.categories) && old(m.events) <= m.events
    ensures m.st.catOrder == old(m.st.catOrder)
    ensures m.st.eventOrder == old(m.st.eventOrder)[c := added]
    ensures Shown(m.st.eventOrder, m.events, [c], Found(GroupRecord(group, now)))
    ensures unchanged(old(m.events))
  {
    var eventList := EventList(group);
    if eventList.Some? {
      added := FillFromList(m, c, group, name, eventList.value, now);
    } else {
      GroupWithoutEvents(group, now);
      added := [];
      ShownSingle(m.st.eventOrder, m.events, c, CategoryRecord(name, []));
    }
  }

  /** A named group with an event list: its events are given to `c`. */
  method FillFromList(m: Model, c: Category, group: map<string, Json>, name: string, items: seq<Json>, now: Date)
    returns (ghost added: seq<Event>)
    requires m.Valid() && c in m.categories && m.st.eventOrder[c] == []
    requires c.name == Some(name) && CategoryName(group) == Some(name) && name != "" && EventList(group) == Some(items)
    modifies m, c`events
    ensures m.Valid() && m.categories == old(m.categories) && old(m.events) <= m.events
    ensures m.st.catOrder == old(m.st.catOrder)
    ensures m.st.eventOrder == old(m.st.eventOrder)[c := added]
    ensures Shown(m.st.eventOrder, m.events, [c], Found(GroupRecord(group, now)))
    ensures unchanged(old(m.events))
  {
    NamedGroupRecord(group, name, items, now);
    added := AddEvents(m, c, items, now);
    ShownSingle(m.st.eventOrder, m.events, c, CategoryRecord(name, EventRecords(items, now)));
  }

  /** The record of a named group with an event list: its name, with the
      events the list describes. */
  lemma NamedGroupRecord(group: map<string, Json>, name: string, items: seq<Json>, now: Date)
    requires CategoryName(group) == Some(name) && name != "" && EventList(group) == Some(items)
    ensures GroupRecord(group, now) == Some(CategoryRecord(name, EventRecords(items, now)))
  {
  }

  /** A category showing its record on its own. */
  lemma ShownSingle(order: map<Category, seq<Event>>, evs: set<Event>, c: Category, r: CategoryRecord)
    requires c.name == Some(r.name) && c in order && (forall e :: e in order[c] ==> e in evs)
    requires EventsShow(order[c], r.events)
    ensures Shown(order, evs, [c], [r])
  {
  }

  /** The generator's `createNewCategory(name:)` call: a new category with
      no events, appended to the category order. */
  method AppendCategory(m: Model, name: string) returns (c: Category)
    requires m.Valid()
    modifies m, m.categories`orderIndex
    ensures m.Valid() && fresh(c) && c.name == Some(name) && c !in old(m.st.eventOrder)
    ensures m.categories == old(m.categories) + {c} && m.events == old(m.events)
    ensures m.st.catOrder == old(m.st.catOrder) + [c]
    ensures m.st.eventOrder == old(m.st.eventOrder)[c := []]
    ensures unchanged(old(m.events))
  {
    ghost var before := m.st.catOrder;
    c := m.CreateNewCategory(name, None);
    InsertAtEnd(before, c);
  }

  /** The event list of a new category: each block with a non-blank title
      becomes an event appended to the category's event order. */
  method AddEvents(m: Model, c: Category, items: seq<Json>, now: Date) returns (ghost added: seq<Event>)
    requires m.Valid() && c in m.categories && m.st.eventOrder[c] == []
    modifies m, c`events
    ensures m.Valid() && m.categories == old(m.categories) && old(m.events) <= m.events
    ensures m.st.catOrder == old(m.st.catOrder)
    ensures m.st.eventOrder == old(m.st.eventOrder)[c := added]
    ensures (forall e :: e in added ==> e in m.events) && EventsShow(added, EventRecords(items, now))
  {
    ghost var s0 := m.st;
    FillingStart(m, c);
    added := FillEvents(m, c, items, now, s0);
    FilledValid(m, c, s0, added, EventRecords(items, now));
  }

  /** The loop over the event blocks, appending each event a block
      describes. */
  method FillEvents(m: Model, c: Category, items: seq<Json>, now: Date, ghost s0: Contents) returns (ghost added: seq<Event>)
    requires Filling(m, c, s0, [], []) && c.events == {}
    modifies m, c`events
    ensures Filling(m, c, s0, added, EventRecords(items, now))
    ensures m.categories == old(m.categories)
  {
    added := [];
    ghost var recs: seq<EventRecord> := [];
    var i := 0;
    while i < |items|
      invariant 0 <= i <= |items|
      invariant Filling(m, c, s0, added, recs) && recs == EventRecords(items[..i], now)
      invariant m.categories == old(m.categories)
      invariant forall e :: e in c.events ==> fresh(e)
    {
      EventRecordsStep(items, i, now);
      added, recs := AddBlock(m, c, items[i], now, s0, added, recs);
      i := i + 1;
    }
    assert items[..i] == items;
  }

  /** A valid model in which category `c` has no events is ready to be
      filled. */
  lemma FillingStart(m: Model, c: Category)
    requires m.Valid() && c in m.categories && m.st.eventOrder[c] == []
    ensures Filling(m, c, m.st, [], []) && c.events == {}
    ensures Consistent(m.st) && c in m.st.categories && m.events == m.st.events
  {
    assert forall e :: e in m.st.catEvents[c] ==> e in m.st.eventOrder[c];
  }

  /** Once filled, the model is valid again, with the new events, in order,
      as the event order of `c`. */
  lemma FilledValid(m: Model, c: Category, s0: Contents, added: seq<Event>, recs: seq<EventRecord>)
    requires Filling(m, c, s0, added, recs) && Consistent(s0) && c in s0.categories
    ensures m.Valid() && m.st.catOrder == s0.catOrder && m.st.eventOrder == s0.eventOrder[c := added]
    ensures s0.events <= m.events && (forall e :: e in added ==> e in m.events) && EventsShow(added, recs)
  {
    AppendedEventsConsistent(s0, c, added);
    AppendedToEmpty(s0, c, added);
    ElementsAre(added);
  }

  /** While the events of `c` are being filled in from a store `s0` in which
      it had none: `m` holds `s0` with the new events `added` appended to
      `c`, and they carry the records `recs`. */
  ghost predicate Filling(m: Model, c: Category, s0: Contents, added: seq<Event>, recs: seq<EventRecord>)
    reads m, m.categories, m.events, c, added
  {
    && c in s0.catEvents && c in s0.eventOrder && s0.eventOrder[c] == []
    && m.Coupled() && c in m.categories
    && m.st == AppendedEvents(s0, c, added)
    && Lists(added, c.events)
    && (forall j :: 0 <= j < |added| ==> added[j] !in s0.events)
    && EventsShow(added, recs)
  }

  /** One event block: a block with a non-blank title adds the event it
      describes at the end of the events of `c`; any other block adds
      nothing. */
  method AddBlock(m: Model, c: Category, item: Json, now: Date, ghost s0: Contents,
                  ghost added: seq<Event>, ghost recs: seq<EventRecord>)
    returns (ghost added': seq<Event>, ghost recs': seq<EventRecord>)
    requires Filling(m, c, s0, added, recs)
    modifies m, c`events, c.events`orderIndex
    ensures Filling(m, c, s0, added', recs') && recs' == recs + Found(EventOf(item, now))
    ensures m.categories == old(m.categories)
    ensures forall e :: e in c.events ==> e in old(c.events) || fresh(e)
  {
    var event := EventOf(item, now);
    if event.Some? {
      added', recs' := AddFound(m, c, event.value, s0, added, recs);
    } else {
      added', recs' := added, recs;
    }
  }

  /** A block that describes an event: the event is added at the end of the
      events of `c`. */
  method AddFound(m: Model, c: Category, r: EventRecord, ghost s0: Contents,
                  ghost added: seq<Event>, ghost recs: seq<EventRecord>)
    returns (ghost added': seq<Event>, ghost recs': seq<EventRecord>)
    requires Filling(m, c, s0, added, recs)
    modifies m, c`events, c.events`orderIndex
    ensures Filling(m, c, s0, added', recs') && recs' == recs + [r]
    ensures m.categories == old(m.categories)
    ensures forall e :: e in c.events ==> e in old(c.events) || fresh(e)
  {
    var e := AppendEvent(m, c, r, added, recs);
    ShowsAppended(added, recs, e, r);
    FillingNext(m, c, s0, added, recs, e, r);
    added' := added + [e];
    recs' := recs + [r];
  }

  /** The events filled in so far, followed by one more that is new to `s0`. */
  lemma FillingNext(m: Model, c: Category, s0: Contents, added: seq<Event>, recs: seq<EventRecord>, e: Event, r: EventRecord)
    requires c in s0.catEvents && c in s0.eventOrder && s0.eventOrder[c] == []
    requires m.Coupled() && c in m.categories
    requires m.st == AddEvent(AppendedEvents(s0, c, added), e, c, |added|)
    requires Lists(added + [e], c.events)
    requires (forall j :: 0 <= j < |added| ==> added[j] !in s0.events) && e !in s0.events
    requires EventsShow(added + [e], recs + [r])
    ensures Filling(m, c, s0, added + [e], recs + [r])
  {
    AppendedOneMore(s0, c, added, e);
  }

  /** One more event block adds the event it describes, if any, at the end. */
  lemma EventRecordsStep(items: seq<Json>, i: nat, now: Date)
    requires i < |items|
    ensures EventRecords(items[..i + 1], now) == EventRecords(items[..i], now) + Found(EventOf(items[i], now))
  {
    assert items[..i + 1][..i] == items[..i];
  }

  /** The generator's `createNewEvent(title:notes:lastDate:nextDate:in:)`
      call: a new event carrying the fields of `r` is added to `c` after its
      current events (the intended default position), while the events `shown` keep
      the fields they carry (`recs`). */
  method AppendEvent(m: Model, c: Category, r: EventRecord, ghost shown: seq<Event>, ghost recs: seq<EventRecord>)
    returns (e: Event)
    requires m.Coupled() && c in m.categories && Lists(shown, c.events)
    requires |shown| == |recs| && forall j :: 0 <= j < |shown| ==> EventShows(shown[j], recs[j])
    modifies m, c`events, c.events`orderIndex
    ensures m.Coupled() && fresh(e) && m.categories == old(m.categories) && c.events == old(c.events) + {e}
    ensures m.st == AddEvent(old(m.st), e, c, |shown|) && Lists(shown + [e], c.events)
    ensures forall j :: 0 <= j < |shown| ==> EventShows(shown[j], recs[j])
    ensures EventShows(e, r)
  {
    ListedCount(shown, c.events);
    e := m.CreateNewEventWithFields(r.title, Some(r.notes), r.lastDate, r.nextDate, c, None);
    InsertListing(shown, old(c.events), |shown|, e);
    InsertAtEnd(shown, e);
  }

  /** Events carrying their records, followed by one more, carry the records
      followed by its record. */
  lemma ShowsAppended(shown: seq<Event>, recs: seq<EventRecord>, e: Event, r: EventRecord)
    requires |shown| == |recs| && forall j :: 0 <= j < |shown| ==> EventShows(shown[j], recs[j])
    requires EventShows(e, r)
    ensures EventsShow(shown + [e], recs + [r])
  {
  }

  /** The store after `added` is appended, in order, to the events of `c`:
      the other categories and their events stay as they are. */
  ghost function AppendedEvents(s: Contents, c: Category, added: seq<Event>): (r: Contents)
    requires c in s.catEvents && c in s.eventOrder
    ensures c in r.catEvents && c in r.eventOrder && r.eventOrder == s.eventOrder[c := s.eventOrder[c] + added]
    ensures r.categories == s.categories && r.catOrder == s.catOrder
    ensures r.events == s.events + Elements(added)
    decreases |added|
  {
    if added == [] then
      assert s.eventOrder[c] + added == s.eventOrder[c];
      s
    else
      var init, last := added[..|added| - 1], added[|added| - 1];
      var t := AppendedEvents(s, c, init);
      var list := t.eventOrder[c];
      assert InsertAt(list, |list|, last) == list + [last];
      assert added == init + [last];
      assert list + [last] == s.eventOrder[c] + added by {
        assert list == s.eventOrder[c] + init;
      }
      ElementsAppend(init, last);
      AddEvent(t, last, c, |list|)
  }

  /** Appending one more event is adding it one past the others. */
  lemma AppendedOneMore(s: Contents, c: Category, added: seq<Event>, e: Event)
    requires c in s.catEvents && c in s.eventOrder && s.eventOrder[c] == []
    ensures AppendedEvents(s, c, added + [e]) == AddEvent(AppendedEvents(s, c, added), e, c, |added|)
  {
    assert (added + [e])[..|added|] == added;
  }

  /** Appended to a category with no events, the events are its event order. */
  lemma AppendedToEmpty(s: Contents, c: Category, added: seq<Event>)
    requires c in s.catEvents && c in s.eventOrder && s.eventOrder[c] == []
    ensures AppendedEvents(s, c, added).eventOrder == s.eventOrder[c := added]
  {
    assert s.eventOrder[c] + added == added;
  }

  /** Appending new, distinct events to a category of a consistent store
      keeps it consistent. */
  lemma {:induction false} AppendedEventsConsistent(s: Contents, c: Category, added: seq<Event>)
    requires c in s.catEvents && c in s.eventOrder && Distinct(added)
    requires forall j :: 0 <= j < |added| ==> added[j] !in s.events
    ensures Consistent(s) && c in s.categories ==> Consistent(AppendedEvents(s, c, added))
  {
    if added != [] && Consistent(s) && c in s.categories {
      var init, last := added[..|added| - 1], added[|added| - 1];
      NewAfterInit(s, added, init);
      AppendedEventsConsistent(s, c, init);
      var t := AppendedEvents(s, c, init);
      NewEventDefaultAppends(t, last, c);
      AppendedLast(s, c, added);
    }
  }

  /** New distinct events: those before the last are new and distinct too,
      and the last is new to the store extended by them. */
  lemma NewAfterInit(s: Contents, added: seq<Event>, init: seq<Event>)
    requires added != [] && Distinct(added) && init == added[..|added| - 1]
    requires forall j :: 0 <= j < |added| ==> added[j] !in s.events
    ensures Distinct(init) && forall j :: 0 <= j < |init| ==> init[j] !in s.events
    ensures added[|added| - 1] !in s.events + Elements(init)
  {
    ElementIn(init, added[|added| - 1]);
    forall j | 0 <= j < |init| ensures init[j] == added[j] && init[j] != added[|added| - 1] { }
  }

  /** The last appended event is added one past the ones before it. */
  lemma AppendedLast(s: Contents, c: Category, added: seq<Event>)
    requires c in s.catEvents && c in s.eventOrder && added != []
    ensures var t := AppendedEvents(s, c, added[..|added| - 1]);
      AppendedEvents(s, c, added) == AddEvent(t, added[|added| - 1], c, NewEventIndex(t, c, None))
  {
  }
}
