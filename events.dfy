/** The event record shared by the page, the month grid and the day panel,
    and the two views of the event list they compute with `filter`. */
module Events {
  import opened Seqs

  /** One calendar event. `date` is the day's `YYYY-MM-DD` string, compared
      as an opaque string; `id` is an opaque token. */
  datatype Event = Event(id: string, date: string, title: string)

  datatype Option<T> = None | Some(value: T)

  /** Whether an event is dated `day`. */
  function DateIs(day: string): Event -> bool {
    (e: Event) => e.date == day
  }

  /** Whether an event has an id other than `id`. */
  function IdIsNot(id: string): Event -> bool {
    (e: Event) => e.id != id
  }

  /** The events dated `day`, in list order: what the grid checks for a cell
      and what the panel lists. */
  function EventsOn(events: seq<Event>, day: string): (r: seq<Event>)
    ensures |r| <= |events|
    ensures forall e :: e in r <==> e in events && e.date == day
  {
    FilterContains(events, DateIs(day));
    Filter(events, DateIs(day))
  }

  /** The event list after deleting `id`: every event with another id, in
      list order. */
  function WithoutId(events: seq<Event>, id: string): (r: seq<Event>)
    ensures |r| <= |events|
    ensures forall e :: e in r <==> e in events && e.id != id
  {
    FilterContains(events, IdIsNot(id));
    Filter(events, IdIsNot(id))
  }

  /** The events on `day` are exactly those of `events` dated `day`: every
      occurrence of such an event is kept, no other event is, and their
      relative order is the order in `events`. */
  lemma EventsOnExact(events: seq<Event>, day: string)
    ensures IsSubsequence(EventsOn(events, day), events)
    ensures forall e :: multiset(EventsOn(events, day))[e]
                        == if e.date == day then multiset(events)[e] else 0
  {
    FilterIsSubsequence(events, DateIs(day));
    forall e ensures multiset(EventsOn(events, day))[e]
                     == if e.date == day then multiset(events)[e] else 0
    {
      FilterCount(events, DateIs(day), e);
    }
  }

  /** Deleting `id` keeps every other event, each occurrence of it, in the
      original relative order, and drops every event that has that id. */
  lemma WithoutIdExact(events: seq<Event>, id: string)
    ensures IsSubsequence(WithoutId(events, id), events)
    ensures forall e :: multiset(WithoutId(events, id))[e]
                        == if e.id != id then multiset(events)[e] else 0
  {
    FilterIsSubsequence(events, IdIsNot(id));
    forall e ensures multiset(WithoutId(events, id))[e]
                     == if e.id != id then multiset(events)[e] else 0
    {
      FilterCount(events, IdIsNot(id), e);
    }
  }

  /** Deleting an id that no event has leaves the list as it was. */
  lemma WithoutAbsentId(events: seq<Event>, id: string)
    requires forall e :: e in events ==> e.id != id
    ensures WithoutId(events, id) == events
  {
    FilterAllPass(events, IdIsNot(id));
  }

  /** Appending an event whose id is new and then deleting that id restores
      the list. */
  lemma AppendThenDelete(events: seq<Event>, e: Event)
    requires forall x :: x in events ==> x.id != e.id
    ensures WithoutId(events + [e], e.id) == events
  {
    FilterConcat(events, [e], IdIsNot(e.id));
    WithoutAbsentId(events, e.id);
  }

  /** An appended event dated `day` is listed last among that day's events,
      after the ones that were there already. */
  lemma AppendListedLast(events: seq<Event>, e: Event, day: string)
    ensures EventsOn(events + [e], day)
            == if e.date == day then EventsOn(events, day) + [e] else EventsOn(events, day)
  {
    FilterConcat(events, [e], DateIs(day));
  }

  /** The day's list after a delete is the day's list before it without the
      deleted id: the two filters commute. */
  lemma {:induction false} ListAfterDelete(events: seq<Event>, day: string, id: string)
    ensures EventsOn(WithoutId(events, id), day) == WithoutId(EventsOn(events, day), id)
  {
    if events != [] {
      ListAfterDelete(events[1..], day, id);
    }
  }
}
