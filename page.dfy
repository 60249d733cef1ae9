/** The home page: the event list, the selected day and whether the panel is
    open, the handlers it passes to the grid and the panel, and the wiring
    between them. */
module Page {
  import opened Events
  import opened Modal

  /** The page's `events`, `selectedDate` and `modalOpen` state. The
      selected date is the day's `YYYY-MM-DD` string. */
  class HomePage {
    var events: seq<Event>
    var selectedDate: Option<string>
    var modalOpen: bool

    /** The initial state: no events, no day, panel closed. */
    constructor ()
      ensures events == [] && selectedDate == None && !modalOpen
    {
      events := [];
      selectedDate := None;
      modalOpen := false;
    }

    /** `handleDateClick`: select the day and open the panel. */
    method HandleDateClick(day: string)
      modifies this
      ensures selectedDate == Some(day) && modalOpen
      ensures events == old(events)
    {
      selectedDate := Some(day);
      modalOpen := true;
    }

    /** `handleSave`: append the event. */
    method HandleSave(e: Event)
      modifies this
      ensures events == old(events) + [e]
      ensures selectedDate == old(selectedDate) && modalOpen == old(modalOpen)
    {
      events := events + [e];
    }

    /** `handleDelete`: keep every event whose id differs. */
    method HandleDelete(id: string)
      modifies this
      ensures events == WithoutId(old(events), id)
      ensures forall e :: e in events ==> e.id != id
      ensures selectedDate == old(selectedDate) && modalOpen == old(modalOpen)
    {
      events := WithoutId(events, id);
    }

    /** `handleClose`: close the panel, keeping the day and the events. */
    method HandleClose()
      modifies this
      ensures !modalOpen
      ensures selectedDate == old(selectedDate) && events == old(events)
    {
      modalOpen := false;
    }
  }

  /** A click on the cell of `day`: the page selects it and opens the panel,
      and the panel's effect, triggered by the new date, empties the buffer. */
  method ClickDay(page: HomePage, modal: EventModal, day: string)
    modifies page, modal
    ensures page.selectedDate == Some(day) && page.modalOpen
    ensures page.events == old(page.events)
    ensures modal.title == ""
  {
    page.HandleDateClick(day);
    modal.OnOpenOrDateChange(page.modalOpen);
  }

  /** A click on the panel's save button, with `freshId` the generated id:
      the list grows by the emitted event, if any. */
  method ClickSave(page: HomePage, modal: EventModal, freshId: string) returns (saved: Option<Event>)
    modifies page, modal
    ensures saved == SaveRequest(page.modalOpen, page.selectedDate, old(modal.title), freshId)
    ensures page.events == if saved.Some? then old(page.events) + [saved.value] else old(page.events)
    ensures modal.title == if saved.Some? then "" else old(modal.title)
    ensures page.selectedDate == old(page.selectedDate) && page.modalOpen == old(page.modalOpen)
  {
    saved := modal.HandleSave(page.modalOpen, page.selectedDate, freshId);
    if saved.Some? {
      page.HandleSave(saved.value);
    }
  }

  /** A click on the delete button of the `k`-th listed event: that event's
      id is deleted from the list. */
  method ClickDelete(page: HomePage, k: nat) returns (deleted: Option<string>)
    modifies page
    ensures deleted == DeleteRequest(old(page.modalOpen), old(page.selectedDate), old(page.events), k)
    ensures page.events == if deleted.Some? then WithoutId(old(page.events), deleted.value) else old(page.events)
    ensures page.selectedDate == old(page.selectedDate) && page.modalOpen == old(page.modalOpen)
  {
    deleted := DeleteRequest(page.modalOpen, page.selectedDate, page.events, k);
    if deleted.Some? {
      page.HandleDelete(deleted.value);
    }
  }

  /** A save from the open panel adds one event, dated the selected day and
      titled with the buffer as typed, listed last for that day. */
  lemma SavedEventListedLast(events: seq<Event>, day: string, title: string, freshId: string)
    requires exists i :: 0 <= i < |title| && !IsWhitespace(title[i])
    ensures SaveRequest(true, Some(day), title, freshId) == Some(Event(freshId, day, title))
    ensures EventsOn(events + [Event(freshId, day, title)], day)
            == EventsOn(events, day) + [Event(freshId, day, title)]
  {
    AppendListedLast(events, Event(freshId, day, title), day);
  }

  /** A delete from the panel leaves the day listing its other events in
      the same order, without the deleted one or any event sharing its id. */
  lemma DeletedEventNotListed(events: seq<Event>, day: string, k: nat)
    requires k < |EventsOn(events, day)|
    ensures var id := EventsOn(events, day)[k].id;
            && EventsOn(WithoutId(events, id), day) == WithoutId(EventsOn(events, day), id)
            && EventsOn(events, day)[k] !in EventsOn(WithoutId(events, id), day)
  {
    ListAfterDelete(events, day, EventsOn(events, day)[k].id);
  }

  /** A title of blanks and tabs is rejected. */
  lemma BlankTitleRejected(day: string)
    ensures SaveRequest(true, Some(day), " \t", "a1") == None
  {
    assert IsWhitespace(" \t"[0]) && IsWhitespace(" \t"[1]);
  }

  /** A title with a visible character is saved as typed, leading blank included. */
  lemma TitleSavedAsTyped(day: string)
    ensures SaveRequest(true, Some(day), " Dentist", "a2") == Some(Event("a2", day, " Dentist"))
  {
    assert !IsWhitespace(" Dentist"[1]);
  }

  /** The only listed event's delete button removes it. */
  lemma OnlyEventDeleted(day: string)
    ensures DeleteRequest(true, Some(day), [Event("a2", day, " Dentist")], 0) == Some("a2")
    ensures WithoutId([Event("a2", day, " Dentist")], "a2") == []
  {
    var listed := Event("a2", day, " Dentist");
    assert [] + [listed] == [listed];
    AppendListedLast([], listed, day);
    AppendThenDelete([], listed);
  }

  /** Typing a blank title into the open panel of an empty day and pressing
      the add button changes nothing. */
  method TryBlankTitle(page: HomePage, modal: EventModal, day: string)
    requires page.events == [] && page.selectedDate == Some(day) && page.modalOpen
    modifies page, modal
    ensures page.events == [] && page.selectedDate == Some(day) && page.modalOpen
    ensures modal.title == " \t"
  {
    modal.OnTitleChange(" \t");
    BlankTitleRejected(day);
    var saved := ClickSave(page, modal, "a1");
    assert saved == None;
  }

  /** Saving a real title on the open panel of an empty day and then pressing
      its delete button leaves the day empty again, with a cleared buffer. */
  method SaveThenDelete(page: HomePage, modal: EventModal, day: string)
    requires page.events == [] && page.selectedDate == Some(day) && page.modalOpen
    modifies page, modal
    ensures page.events == [] && page.selectedDate == Some(day) && page.modalOpen
    ensures modal.title == ""
  {
    modal.OnTitleChange(" Dentist");
    TitleSavedAsTyped(day);
    var saved := ClickSave(page, modal, "a2");
    assert page.events == [Event("a2", day, " Dentist")] && modal.title == "";

    OnlyEventDeleted(day);
    var deleted := ClickDelete(page, 0);
    assert deleted == Some("a2");
  }

  /** A worked session: open an empty day, try to save a blank title, then
      save a real one and delete it again. */
  method Session(day: string) returns (page: HomePage, modal: EventModal)
    ensures page.events == [] && page.selectedDate == Some(day) && page.modalOpen
    ensures modal.title == ""
  {
    page := new HomePage();
    modal := new EventModal();
    ClickDay(page, modal, day);
    TryBlankTitle(page, modal, day);
    SaveThenDelete(page, modal, day);
  }
}
