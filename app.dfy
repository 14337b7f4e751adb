/** The application state and the controller.

    `AppState` holds the model and the event the detail view shows.
    `AppController` turns the commands of the event list, the event detail and
    the category list views into model operations, and keeps the selection
    pointing at an event of the model: deleting the selected event clears it
    or moves it to the first event, and deleting the category of the selected
    event moves it to the first event. The views themselves and the saving of
    the store are not modelled. */
module App {
  import opened Optional
  import opened Dates
  import opened Ordering
  import opened Records
  import opened Store
  import opened ReminderModel

  class AppState {
    /** The event the detail view shows, if any. */
    var currentSelectedEvent: Event?
    /** The model: the category list and the events in each category. */
    var model: Model

    /** The selection, when there is one, is an event of the model. */
    ghost predicate SelectionLive()
      reads this, model
    {
      currentSelectedEvent == null || currentSelectedEvent in model.events
    }

    /** `init(model:selectedEvent:)`: a fresh empty model when none is given. */
    constructor (model: Model?, selectedEvent: Event?)
      ensures currentSelectedEvent == selectedEvent
      ensures model != null ==> this.model == model
      ensures model == null ==> fresh(this.model) && this.model.Valid()
                                && this.model.categories == {} && this.model.events == {}
    {
      if model == null {
        this.model := new Model();
      } else {
        this.model := model;
      }
      currentSelectedEvent := selectedEvent;
    }

    /** `setNewModel`: the old model is dropped; the selection is kept. */
    method SetNewModel(model: Model)
      modifies this`model
      ensures this.model == model && currentSelectedEvent == old(currentSelectedEvent)
    {
      this.model := model;
    }

    /** `setSelectedEvent`: the model is kept. */
    method SetSelectedEvent(event: Event?)
      modifies this`currentSelectedEvent
      ensures currentSelectedEvent == event && model == old(model)
    {
      currentSelectedEvent := event;
    }

    /** `badgeCount`: the number of events of the model due within
        `numberOfDays` days of the end of today. */
    method BadgeCount(numberOfDays: int, endOfToday: Date) returns (count: nat)
      requires model.Valid()
      ensures count == |DueAmong(model.events, endOfToday, numberOfDays)|
      ensures count <= |model.events|
    {
      count := model.CountDueEvents(endOfToday, numberOfDays);
    }
  }

  /** An event of a valid model belongs to a category of the model, whose
      events are all events of the model. */
  lemma EventFiledInModel(m: Model, e: Event)
    requires m.Valid() && e in m.events
    ensures e.category != null && e.category in m.categories && e in e.category.events
  {
    StoredEventFiled(m.st, e);
  }

  /** The first event of a valid model is one of its events, and there is
      none exactly when the model has no events. */
  lemma FirstEventInModel(m: Model)
    requires m.Valid()
    ensures var first := FirstEventIn(m.st.catOrder, m.st.eventOrder);
      && (first == null <==> m.events == {})
      && (first != null ==> first in m.events)
  {
    FirstEventOfStore(m.st);
  }

  /** The events of a category of a valid model are events of the model. */
  lemma CategoryEventsInModel(m: Model, c: Category)
    requires m.Valid() && c in m.categories
    ensures c.events <= m.events
  {
    assert m.st.catEvents[c] <= m.st.events;
  }

  // ---------------------------------------------------------------------------
  // Commands
  // ---------------------------------------------------------------------------

  /** The commands of the event list view. */
  datatype EventListCommand =
    | SetSelectedEvent(selected: Event?)
    | CreateNewEvent(category: Category, atIndex: Option<int>)
    | DeleteEvent(event: Event)
    | ReorderEvent(event: Event, toIndex: int)

  /** The commands of the event detail view. */
  datatype DetailViewCommand =
    | MoveEvent(event: Event, toNewCategory: Category)
    | DeleteEvent(event: Event)
    | PublishUpdatedEvent(event: Event)

  /** The commands of the category list view. */
  datatype CategoryListCommand =
    | RenameCategory(category: Category, newName: string)
    | DeleteCategory(category: Category)
    | ReorderCategory(category: Category, toIndex: int)
    | AddCategory(name: string)

  // ---------------------------------------------------------------------------
  // What the commands do, on values
  // ---------------------------------------------------------------------------

  /** The store and the selection after an event-list command, from the store
      `s` and the selection `selected` before it; `created` is the record a
      `.createNewEvent` makes. */
  ghost function EventListOutcome(command: EventListCommand, s: Contents, selected: Event?, created: Event?): (Contents, Event?)
    requires Consistent(s)
    requires command.CreateNewEvent? ==> command.category in s.categories && created != null
    requires command.DeleteEvent? ==> command.event in s.events
    requires command.ReorderEvent? ==> command.event in s.events && Filed(s, command.event)
                                       && 0 <= command.toIndex < |s.catEvents[s.eventCat[command.event]]|
  {
    match command
    case SetSelectedEvent(event) => (s, event)
    case CreateNewEvent(category, index) =>
      (AddEvent(s, created, category, NewEventIndex(s, category, index)), selected)
    case DeleteEvent(event) =>
      StoredEventFiled(s, event);
      (RemoveEvent(s, event), if selected == event then null else selected)
    case ReorderEvent(event, index) =>
      MoveEventListing(s, event, index);
      (Store.MoveEvent(s, event, index), selected)
  }

  /** The outcome of an event-list command, case by case. */
  lemma EventListOutcomeCases(command: EventListCommand, s: Contents, selected: Event?, created: Event?)
    requires Consistent(s)
    requires command.CreateNewEvent? ==> command.category in s.categories && created != null
    requires command.DeleteEvent? ==> command.event in s.events
    requires command.ReorderEvent? ==> command.event in s.events && Filed(s, command.event)
                                       && 0 <= command.toIndex < |s.catEvents[s.eventCat[command.event]]|
    ensures var after := EventListOutcome(command, s, selected, created);
      && (command.SetSelectedEvent? ==> after == (s, command.selected))
      && (command.CreateNewEvent? ==>
            after == (AddEvent(s, created, command.category, NewEventIndex(s, command.category, command.atIndex)), selected))
      && (command.DeleteEvent? ==>
            Filed(s, command.event)
            && after == (RemoveEvent(s, command.event), if selected == command.event then null else selected))
      && (command.ReorderEvent? ==>
            command.toIndex <= |Remove(s.eventOrder[s.eventCat[command.event]], command.event)|
            && after == (Store.MoveEvent(s, command.event, command.toIndex), selected))
  {
    match command
    case SetSelectedEvent(_) =>
    case CreateNewEvent(_, _) =>
    case DeleteEvent(event) => StoredEventFiled(s, event);
    case ReorderEvent(event, index) => MoveEventListing(s, event, index);
  }

  /** The outcome of a detail-view command, case by case. */
  lemma DetailViewOutcomeCases(command: DetailViewCommand, s: Contents, selected: Event?)
    requires Consistent(s)
    requires command.MoveEvent? ==> command.event in s.events && command.toNewCategory in s.categories
    requires command.DeleteEvent? ==> command.event in s.events
    ensures var after := DetailViewOutcome(command, s, selected);
      && (command.MoveEvent? ==>
            Filed(s, command.event)
            && after == (MoveEventToCategory(s, command.event, command.toNewCategory, None), selected))
      && (command.DeleteEvent? ==>
            Filed(s, command.event)
            && var t := RemoveEvent(s, command.event);
            after == (t, FirstEventIn(t.catOrder, t.eventOrder)))
      && (command.PublishUpdatedEvent? ==> after == (s, selected))
  {
    match command
    case MoveEvent(event, _) => StoredEventFiled(s, event);
    case DeleteEvent(event) => StoredEventFiled(s, event);
    case PublishUpdatedEvent(_) =>
  }

  /** The outcome of a category-list command, case by case. */
  lemma CategoryListOutcomeCases(command: CategoryListCommand, s: Contents, selected: Event?, created: Category?)
    requires Consistent(s)
    requires command.DeleteCategory? ==> command.category in s.categories
    requires command.ReorderCategory? ==> command.category in s.categories && 0 <= command.toIndex < |s.categories|
    requires command.AddCategory? ==> created != null
    ensures var after := CategoryListOutcome(command, s, selected, created);
      && (command.RenameCategory? ==> after == (s, selected))
      && (command.DeleteCategory? ==>
            var t := RemoveCategory(s, command.category);
            after == (t, if selected != null && selected in s.catEvents[command.category]
                         then FirstEventIn(t.catOrder, t.eventOrder) else selected))
      && (command.ReorderCategory? ==>
            command.toIndex <= |Remove(s.catOrder, command.category)|
            && after == (MoveCategory(s, command.category, command.toIndex), selected))
      && (command.AddCategory? ==> after == (Store.AddCategory(s, created, |s.categories|), selected))
  {
    if command.ReorderCategory? {
      RankedIsDistinct(s.catOrder, s.catKey);
      RemoveListing(s.catOrder, s.categories, command.category);
      ListedCount(s.catOrder, s.categories);
    }
  }

  /** A selection that was live and is cleared when its event is removed
      stays live. */
  lemma LiveAfterRemoval(sel0: Event?, events0: set<Event>, event: Event, sel1: Event?, events1: set<Event>)
    requires events1 == events0 - {event}
    requires sel1 == if sel0 == event then null else sel0
    ensures sel0 == null || sel0 in events0 ==> sel1 == null || sel1 in events1
  {
  }

  /** The store and the selection after a detail-view command. */
  ghost function DetailViewOutcome(command: DetailViewCommand, s: Contents, selected: Event?): (Contents, Event?)
    requires Consistent(s)
    requires command.MoveEvent? ==> command.event in s.events && command.toNewCategory in s.categories
    requires command.DeleteEvent? ==> command.event in s.events
  {
    match command
    case MoveEvent(event, category) =>
      StoredEventFiled(s, event);
      (MoveEventToCategory(s, event, category, None), selected)
    case DeleteEvent(event) =>
      StoredEventFiled(s, event);
      var t := RemoveEvent(s, event);
      (t, FirstEventIn(t.catOrder, t.eventOrder))
    case PublishUpdatedEvent(_) => (s, selected)
  }

  /** The store and the selection after a category-list command; `created`
      is the record an `.addCategory` makes. Renaming leaves both as they are
      (it changes a name only). */
  ghost function CategoryListOutcome(command: CategoryListCommand, s: Contents, selected: Event?, created: Category?): (Contents, Event?)
    requires Consistent(s)
    requires command.DeleteCategory? ==> command.category in s.categories
    requires command.ReorderCategory? ==> command.category in s.categories && 0 <= command.toIndex < |s.categories|
    requires command.AddCategory? ==> created != null
  {
    match command
    case RenameCategory(_, _) => (s, selected)
    case DeleteCategory(category) =>
      var t := RemoveCategory(s, category);
      (t, if selected != null && selected in s.catEvents[category] then FirstEventIn(t.catOrder, t.eventOrder)
          else selected)
    case ReorderCategory(category, index) =>
      RankedIsDistinct(s.catOrder, s.catKey);
      RemoveListing(s.catOrder, s.categories, category);
      ListedCount(s.catOrder, s.categories);
      (MoveCategory(s, category, index), selected)
    case AddCategory(_) => (Store.AddCategory(s, created, |s.categories|), selected)
  }

  /** Every event-list command other than `.setSelectedEvent` leaves a
      selection that was an event of the store on an event of the store, or
      on none (after deleting the selected event). */
  lemma EventListKeepsSelectionLive(command: EventListCommand, s: Contents, selected: Event?, created: Event?)
    requires Consistent(s)
    requires command.CreateNewEvent? ==> command.category in s.categories && created != null
    requires command.DeleteEvent? ==> command.event in s.events
    requires command.ReorderEvent? ==> command.event in s.events && Filed(s, command.event)
                                       && 0 <= command.toIndex < |s.catEvents[s.eventCat[command.event]]|
    requires !command.SetSelectedEvent? && (selected == null || selected in s.events)
    ensures var after := EventListOutcome(command, s, selected, created);
            after.1 == null || after.1 in after.0.events
  {
  }

  /** Every detail-view command leaves the selection on an event of the
      store or on none; after a deletion it is the first event of the store,
      which is none exactly when the store has no events left. */
  lemma DetailViewKeepsSelectionLive(command: DetailViewCommand, s: Contents, selected: Event?)
    requires Consistent(s)
    requires command.MoveEvent? ==> command.event in s.events && command.toNewCategory in s.categories
    requires command.DeleteEvent? ==> command.event in s.events
    requires selected == null || selected in s.events
    ensures var after := DetailViewOutcome(command, s, selected);
            && (after.1 == null || after.1 in after.0.events)
            && (command.DeleteEvent? ==> (after.1 == null <==> after.0.events == {}) && after.1 != command.event)
  {
    if command.DeleteEvent? {
      RemoveEventConsistent(s, command.event);
      FirstEventOfStore(RemoveEvent(s, command.event));
    }
  }

  /** Every category-list command leaves the selection on an event of the
      store or on none: deleting the category of the selected event moves it
      to the first event, and a selection outside that category survives. */
  lemma CategoryListKeepsSelectionLive(command: CategoryListCommand, s: Contents, selected: Event?, created: Category?)
    requires Consistent(s)
    requires command.DeleteCategory? ==> command.category in s.categories
    requires command.ReorderCategory? ==> command.category in s.categories && 0 <= command.toIndex < |s.categories|
    requires command.AddCategory? ==> created != null
    requires selected == null || selected in s.events
    ensures var after := CategoryListOutcome(command, s, selected, created);
            after.1 == null || after.1 in after.0.events
  {
    if command.DeleteCategory? {
      RemoveCategoryConsistent(s, command.category);
      FirstEventOfStore(RemoveCategory(s, command.category));
    }
  }

  class AppController {
    /** The application state the controller drives. */
    const state: AppState

    constructor (state: AppState)
      ensures this.state == state
    {
      this.state := state;
    }

    /** `startup`: the state gets a new, empty model. */
    method Startup()
      modifies state`model
      ensures fresh(state.model) && state.model.Valid()
      ensures state.model.categories == {} && state.model.events == {}
      ensures state.currentSelectedEvent == old(state.currentSelectedEvent)
    {
      var model := new Model();
      state.SetNewModel(model);
    }

    // -------------------------------------------------------------------------
    // Command dispatch
    // -------------------------------------------------------------------------

    /** `doEventListAction`: the command's outcome; `created` is the event a
        `.createNewEvent` makes. The model stays valid, except that a new
        event at a position outside 0 .. n breaks the order keys. */
    method DoEventListAction(command: EventListCommand) returns (ghost created: Event?)
      requires state.model.Valid()
      requires command.CreateNewEvent? ==> command.category in state.model.categories
      requires command.DeleteEvent? ==> command.event in state.model.events
      requires command.ReorderEvent? ==> command.event in state.model.events && command.event.category != null
                                         && 0 <= command.toIndex < |command.event.category.events|
      modifies state`currentSelectedEvent, state.model, state.model.categories`events
      modifies state.model.events`orderIndex, state.model.events`category
      ensures state.model == old(state.model)
      ensures command.ReorderEvent? ==> Filed(old(state.model.st), command.event)
      ensures command.CreateNewEvent? ==> created != null && fresh(created)
      ensures (state.model.st, state.currentSelectedEvent)
              == EventListOutcome(command, old(state.model.st), old(state.currentSelectedEvent), created)
      ensures state.model.Valid() <==>
                (command.CreateNewEvent? ==> 0 <= NewEventIndex(old(state.model.st), command.category, command.atIndex)
                                             <= old(|command.category.events|))
    {
      created := null;
      match command {
        case SetSelectedEvent(event) =>
          SelectEvent(event);
        case CreateNewEvent(category, index) =>
          var event := this.AddNewEvent(category, index);
          created := event;
        case DeleteEvent(event) =>
          this.DeleteEventViaEventListView(event);
        case ReorderEvent(event, index) =>
          this.ReorderEvent(event, index);
      }
    }

    /** `doDetailViewAction`: the command's outcome; the model stays valid. */
    method DoDetailViewAction(command: DetailViewCommand)
      requires state.model.Valid()
      requires command.MoveEvent? ==> command.event in state.model.events && command.toNewCategory in state.model.categories
      requires command.DeleteEvent? ==> command.event in state.model.events
      modifies state`currentSelectedEvent, state.model, state.model.categories`events
      modifies state.model.events`orderIndex, state.model.events`category
      ensures state.model == old(state.model) && state.model.Valid()
      ensures (state.model.st, state.currentSelectedEvent)
              == DetailViewOutcome(command, old(state.model.st), old(state.currentSelectedEvent))
      ensures old(state.SelectionLive()) ==> state.SelectionLive()
    {
      match command {
        case MoveEvent(event, category) =>
          this.ChangeCategoryForEvent(event, category);
          DetailViewOutcomeCases(command, old(state.model.st), old(state.currentSelectedEvent));
        case DeleteEvent(event) =>
          this.DeleteEventViaEventDetailView(event);
        case PublishUpdatedEvent(event) =>
          DetailViewOutcomeCases(command, state.model.st, state.currentSelectedEvent);
      }
    }

    /** `doCategoryListAction`: the command's outcome (a rename sets the name
        and nothing else); `created` is the category an `.addCategory` makes.
        The model stays valid. */
    method DoCategoryListAction(command: CategoryListCommand) returns (ghost created: Category?)
      requires state.model.Valid()
      requires command.RenameCategory? ==> command.category in state.model.categories
      requires command.DeleteCategory? ==> command.category in state.model.categories
      requires command.ReorderCategory? ==> command.category in state.model.categories
                                            && 0 <= command.toIndex < |state.model.categories|
      modifies state`currentSelectedEvent, state.model, state.model.categories`orderIndex
      modifies state.model.categories`name
      ensures state.model == old(state.model) && state.model.Valid()
      ensures command.RenameCategory? ==> command.category.name == Some(command.newName)
      ensures command.AddCategory? ==> created != null && fresh(created) && created.name == Some(command.name)
      ensures (state.model.st, state.currentSelectedEvent)
              == CategoryListOutcome(command, old(state.model.st), old(state.currentSelectedEvent), created)
    {
      created := null;
      match command {
        case RenameCategory(category, newName) =>
          this.RenameCategory(category, newName);
          assert state.model.Valid() == old(state.model.Valid());
          CategoryListOutcomeCases(command, old(state.model.st), old(state.currentSelectedEvent), null);
        case DeleteCategory(category) =>
          this.DeleteCategory(category);
        case ReorderCategory(category, index) =>
          this.ReorderCategory(category, index);
        case AddCategory(name) =>
          var category := this.AddCategory(name);
          created := category;
      }
    }

    // -------------------------------------------------------------------------
    // Event selection
    // -------------------------------------------------------------------------

    /** `selectFirstEvent`: the selection becomes the first event of the
        first category that has events, or none when the model has none. */
    method SelectFirstEvent()
      requires state.model.Valid()
      modifies state`currentSelectedEvent
      ensures state.model == old(state.model) && state.model.Valid()
      ensures state.model.st == old(state.model.st) && state.model.events == old(state.model.events)
      ensures state.currentSelectedEvent == FirstEventIn(state.model.st.catOrder, state.model.st.eventOrder)
      ensures state.currentSelectedEvent == null <==> state.model.events == {}
      ensures state.SelectionLive()
    {
      var model := state.model;
      var event := model.FirstListed();
      FirstEventInModel(model);
      SelectEvent(event);
    }

    /** `selectEvent`: the selection becomes `event`; the model is untouched. */
    method SelectEvent(event: Event?)
      modifies state`currentSelectedEvent
      ensures state.currentSelectedEvent == event && state.model == old(state.model)
      ensures state.model.st == old(state.model.st) && state.model.events == old(state.model.events)
      ensures old(state.model.Valid()) ==> state.model.Valid()
    {
      state.SetSelectedEvent(event);
      assert state.model.Valid() == old(state.model.Valid());
    }

    // -------------------------------------------------------------------------
    // Event list actions
    // -------------------------------------------------------------------------

    /** `addNewEvent`: a new event titled "New Event" in `category`, at
        `index` or after the existing events. */
    method AddNewEvent(category: Category, index: Option<int>) returns (event: Event)
      requires state.model.Valid() && category in state.model.categories
      modifies state.model, state.model.categories`events, state.model.events`orderIndex
      ensures fresh(event) && event.title == Some("New Event")
      ensures state.model.st == AddEvent(old(state.model.st), event, category, NewEventIndex(old(state.model.st), category, index))
      ensures NewEventIndex(old(state.model.st), category, index) == index.GetOr(old(|category.events|))
      ensures state.model.Valid() <==> 0 <= NewEventIndex(old(state.model.st), category, index) <= old(|category.events|)
      ensures (state.model.st, state.currentSelectedEvent)
              == EventListOutcome(EventListCommand.CreateNewEvent(category, index), old(state.model.st),
                                  old(state.currentSelectedEvent), event)
      ensures state.currentSelectedEvent == old(state.currentSelectedEvent)
      ensures old(state.SelectionLive()) ==> state.SelectionLive()
    {
      var model := state.model;
      CategoryEventsInModel(model, category);
      event := model.CreateNewEvent("New Event", category, index);
      EventListOutcomeCases(EventListCommand.CreateNewEvent(category, index), old(state.model.st),
                            old(state.currentSelectedEvent), event);
    }

    /** `deleteEventViaEventListView`: the event is deleted, and the selection
        is cleared when it was that event. */
    method DeleteEventViaEventListView(event: Event)
      requires state.model.Valid() && event in state.model.events
      modifies state`currentSelectedEvent, state.model, event`category
      modifies state.model.categories`events, state.model.events`orderIndex
      ensures state.model == old(state.model) && state.model.Valid()
      ensures state.model.st == RemoveEvent(old(state.model.st), event)
      ensures state.currentSelectedEvent == if old(state.currentSelectedEvent) == event then null
                                           else old(state.currentSelectedEvent)
      ensures old(state.SelectionLive()) ==> state.SelectionLive()
      ensures (state.model.st, state.currentSelectedEvent)
              == EventListOutcome(EventListCommand.DeleteEvent(event), old(state.model.st),
                                  old(state.currentSelectedEvent), null)
    {
      DeleteEventFromModel(event);
      DeselectIfSelected(event);
      LiveAfterRemoval(old(state.currentSelectedEvent), old(state.model.events), event,
                       state.currentSelectedEvent, state.model.events);
      EventListOutcomeCases(EventListCommand.DeleteEvent(event), old(state.model.st),
                            old(state.currentSelectedEvent), null);
    }

    /** Clears the selection when it is `event`; the model is untouched. */
    method DeselectIfSelected(event: Event)
      requires state.model.Valid()
      modifies state`currentSelectedEvent
      ensures state.currentSelectedEvent == if old(state.currentSelectedEvent) == event then null
                                           else old(state.currentSelectedEvent)
      ensures state.model == old(state.model) && state.model.Valid()
      ensures state.model.st == old(state.model.st) && state.model.events == old(state.model.events)
    {
      if state.currentSelectedEvent == event {
        SelectEvent(null);
      }
    }

    /** The model step of both event deletions: the event leaves the model;
        the selection is untouched. */
    method DeleteEventFromModel(event: Event)
      requires state.model.Valid() && event in state.model.events
      modifies state.model, event`category, state.model.categories`events, state.model.events`orderIndex
      ensures state.model == old(state.model) && state.model.Valid()
      ensures state.model.st == RemoveEvent(old(state.model.st), event)
      ensures state.model.events == old(state.model.events) - {event}
      ensures state.currentSelectedEvent == old(state.currentSelectedEvent)
    {
      var model := state.model;
      model.DeleteEvent(event);
    }

    /** `.reorderEvent`: the event moves to `toIndex` within its category. */
    method ReorderEvent(event: Event, toIndex: int)
      requires state.model.Valid() && event in state.model.events && event.category != null
      requires 0 <= toIndex < |event.category.events|
      modifies state.model, state.model.categories`events, state.model.events`orderIndex
      ensures state.model == old(state.model) && state.model.Valid()
      ensures Filed(old(state.model.st), event)
      ensures toIndex <= |Remove(old(state.model.st).eventOrder[old(state.model.st).eventCat[event]], event)|
      ensures state.model.st == Store.MoveEvent(old(state.model.st), event, toIndex)
      ensures (state.model.st, state.currentSelectedEvent)
              == EventListOutcome(EventListCommand.ReorderEvent(event, toIndex), old(state.model.st),
                                  old(state.currentSelectedEvent), null)
      ensures state.model.events == old(state.model.events)
      ensures state.currentSelectedEvent == old(state.currentSelectedEvent)
    {
      var model := state.model;
      EventFiledInModel(model, event);
      CategoryEventsInModel(model, event.category);
      model.MoveEvent(event, toIndex);
      EventListOutcomeCases(EventListCommand.ReorderEvent(event, toIndex), old(state.model.st),
                            old(state.currentSelectedEvent), null);
    }

    // -------------------------------------------------------------------------
    // Detail view actions
    // -------------------------------------------------------------------------

    /** `changeCategoryForEvent`: the event moves to the front of `category`
        (or to the front of its own category). */
    method ChangeCategoryForEvent(event: Event, category: Category)
      requires state.model.Valid() && event in state.model.events && category in state.model.categories
      modifies state.model, event`category, state.model.categories`events, state.model.events`orderIndex
      ensures state.model == old(state.model) && state.model.Valid() && Filed(old(state.model.st), event)
      ensures state.model.st == Store.MoveEventToCategory(old(state.model.st), event, category, None)
      ensures state.model.events == old(state.model.events)
      ensures state.currentSelectedEvent == old(state.currentSelectedEvent)
    {
      var model := state.model;
      EventFiledInModel(model, event);
      model.MoveEventToCategory(event, category, None);
    }

    /** `deleteEventViaEventDetailView`: the (selected) event is deleted and
        the selection moves to the first event. */
    method DeleteEventViaEventDetailView(event: Event)
      requires state.model.Valid() && event in state.model.events
      modifies state`currentSelectedEvent, state.model, event`category
      modifies state.model.categories`events, state.model.events`orderIndex
      ensures state.model == old(state.model) && state.model.Valid()
      ensures state.model.st == RemoveEvent(old(state.model.st), event)
      ensures state.currentSelectedEvent == FirstEventIn(state.model.st.catOrder, state.model.st.eventOrder)
      ensures state.currentSelectedEvent != event && state.SelectionLive()
      ensures (state.model.st, state.currentSelectedEvent)
              == DetailViewOutcome(DetailViewCommand.DeleteEvent(event), old(state.model.st),
                                   old(state.currentSelectedEvent))
    {
      DeleteEventFromModel(event);
      SelectFirstEvent();
      DetailViewOutcomeCases(DetailViewCommand.DeleteEvent(event), old(state.model.st),
                             old(state.currentSelectedEvent));
    }

    // -------------------------------------------------------------------------
    // Category list actions
    // -------------------------------------------------------------------------

    /** `deleteCategory`: the category and its events are deleted; when the
        selection was one of those events, it moves to the first event. */
    method DeleteCategory(category: Category)
      requires state.model.Valid() && category in state.model.categories
      modifies state`currentSelectedEvent, state.model, state.model.categories`orderIndex
      ensures state.model == old(state.model) && state.model.Valid()
      ensures state.model.st == RemoveCategory(old(state.model.st), category)
      ensures var selected := old(state.currentSelectedEvent);
              selected != null && selected in old(category.events) ==>
                state.currentSelectedEvent == FirstEventIn(state.model.st.catOrder, state.model.st.eventOrder)
      ensures var selected := old(state.currentSelectedEvent);
              !(selected != null && selected in old(category.events)) ==> state.currentSelectedEvent == selected
      ensures old(state.SelectionLive()) ==> state.SelectionLive()
      ensures (state.model.st, state.currentSelectedEvent)
              == CategoryListOutcome(CategoryListCommand.DeleteCategory(category), old(state.model.st),
                                     old(state.currentSelectedEvent), null)
    {
      var needNewEventSelection := SelectionIn(category);
      DeleteCategoryFromModel(category);
      if needNewEventSelection {
        SelectFirstEvent();
      }
      assert old(category.events) == old(state.model.st.catEvents[category]);
      CategoryListOutcomeCases(CategoryListCommand.DeleteCategory(category), old(state.model.st),
                               old(state.currentSelectedEvent), null);
    }

    /** The test of `deleteCategory`: whether the selection is one of the
        events of `category`. */
    method SelectionIn(category: Category) returns (needNewEventSelection: bool)
      ensures needNewEventSelection <==> state.currentSelectedEvent != null && state.currentSelectedEvent in category.events
    {
      needNewEventSelection := false;
      var event := state.currentSelectedEvent;
      if event != null {
        var events := category.OrderedEvents();
        if event in events {
          needNewEventSelection := true;
        }
      }
    }

    /** The model step of `deleteCategory`: the category and its events leave
        the model; the selection is untouched. */
    method DeleteCategoryFromModel(category: Category)
      requires state.model.Valid() && category in state.model.categories
      modifies state.model, state.model.categories`orderIndex
      ensures state.model == old(state.model) && state.model.Valid()
      ensures state.model.st == Store.RemoveCategory(old(state.model.st), category)
      ensures state.model.events == old(state.model.events) - old(category.events)
      ensures state.currentSelectedEvent == old(state.currentSelectedEvent)
    {
      var model := state.model;
      model.DeleteCategory(category);
    }

    /** `.reorderCategory`: the category moves to `toIndex` in the category order. */
    method ReorderCategory(category: Category, toIndex: int)
      requires state.model.Valid() && category in state.model.categories
      requires 0 <= toIndex < |state.model.categories|
      modifies state.model, state.model.categories`orderIndex
      ensures state.model == old(state.model) && state.model.Valid()
      ensures toIndex <= |Remove(old(state.model.st).catOrder, category)|
      ensures state.model.st == Store.MoveCategory(old(state.model.st), category, toIndex)
      ensures state.model.events == old(state.model.events)
      ensures state.currentSelectedEvent == old(state.currentSelectedEvent)
      ensures (state.model.st, state.currentSelectedEvent)
              == CategoryListOutcome(CategoryListCommand.ReorderCategory(category, toIndex), old(state.model.st),
                                     old(state.currentSelectedEvent), null)
    {
      var model := state.model;
      model.MoveCategory(category, toIndex);
      CategoryListOutcomeCases(CategoryListCommand.ReorderCategory(category, toIndex), old(state.model.st),
                               old(state.currentSelectedEvent), null);
    }

    /** `.addCategory`: a new category with the given name, after the
        existing ones. */
    method AddCategory(name: string) returns (category: Category)
      requires state.model.Valid()
      modifies state.model, state.model.categories`orderIndex
      ensures state.model == old(state.model) && state.model.Valid()
      ensures fresh(category) && category.name == Some(name)
      ensures state.model.st == Store.AddCategory(old(state.model.st), category, old(|state.model.categories|))
      ensures state.model.events == old(state.model.events)
      ensures state.currentSelectedEvent == old(state.currentSelectedEvent)
      ensures (state.model.st, state.currentSelectedEvent)
              == CategoryListOutcome(CategoryListCommand.AddCategory(name), old(state.model.st),
                                     old(state.currentSelectedEvent), category)
    {
      var model := state.model;
      category := model.CreateNewCategory(name, None);
      CategoryListOutcomeCases(CategoryListCommand.AddCategory(name), old(state.model.st),
                               old(state.currentSelectedEvent), category);
    }

    /** `renameCategory`: only the name of the category changes. */
    method RenameCategory(category: Category, newName: string)
      modifies category`name
      ensures category.name == Some(newName)
      ensures category.orderIndex == old(category.orderIndex) && category.events == old(category.events)
    {
      category.name := Some(newName);
    }
  }
}
