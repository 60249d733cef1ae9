# Calendar app: month navigation and event list, modelled in Dafny

The application is a one-page calendar. A month grid shows the displayed
month. Its previous and next buttons move one month back or forward, wrapping
at the year boundary. A dot marks every day that has events. Clicking a day
opens a panel. The panel lists that day's events, each with a delete button,
and has a text input and an add button. The page owns the event list and
passes four handlers down: select a day and open the panel, append an event,
delete by id, and close the panel.

This project models the state updates behind those components:

- `seqs.dfy` (module `Seqs`): JavaScript's order-preserving `filter`, with
  its membership, subsequence, multiplicity and concatenation laws.
- `events.dfy` (module `Events`): the `Event` record `{id, date, title}`, the
  per-day list `EventsOn`, the delete result `WithoutId`, and the facts that
  relate them.
- `calendar.dfy` (module `Calendar`): the displayed `(year, month)` pair as
  the class `MonthState`, updated by `PrevMonth`/`NextMonth`. It also holds
  the pure `Preceding`/`Following`, checked against the linear month index
  `year * 12 + month`, and the event-dot condition.
- `modal.dfy` (module `Modal`): the panel's title buffer as the class
  `EventModal`, and `trim` with JavaScript's whitespace set. It also holds the
  save guard, what the panel lists and what each delete button sends.
- `page.dfy` (module `Page`): the page state as the class `HomePage`, with
  its four handlers. It also holds the wiring that connects a click on a
  day, the add button or a delete button to the page and the panel, and a
  worked session.

A day is its `YYYY-MM-DD` string, compared as an opaque string. The selected
date is such a string or `None`. Months are numbered as in JavaScript, 0 for
January to 11 for December.

Three facts about the code that the model keeps:

- The saved title is the buffer exactly as typed (`components/EventModal.tsx:46`).
  It is not trimmed.
- The code has no edit mode, no update operation, no cancel and no keyboard
  handling.
- `JSON.parse` of a malformed stored blob throws.

## Model

| member | source | states |
|---|---|---|
| Seqs.Filter | components/Calendar.tsx:43 | `filter` never lengthens the sequence |
| Seqs.FilterContains | components/Calendar.tsx:43 | an element is in the `filter` result iff it is in the sequence and passes the test |
| Events.EventsOn | components/Calendar.tsx:41-44 | `getEventForDay` returns only events of that day and every such event, and is no longer than the list |
| Events.EventsOnExact | components/EventModal.tsx:38-39 | `dayEvents` is a subsequence of `events` (relative order kept) holding every occurrence of each event dated that day and nothing else |
| Events.WithoutId | app/page.tsx:38-40 | after `handleDelete(id)` no event has that id, every event with another id remains, and the list never grows |
| Events.WithoutIdExact | app/page.tsx:39 | the delete result is a subsequence of the old list keeping every occurrence of each event with another id |
| Events.WithoutAbsentId | app/page.tsx:39 | deleting an id no event has leaves the list unchanged |
| Events.AppendThenDelete | app/page.tsx:34-40 | appending an event with a new id and deleting that id restores the original list |
| Events.AppendListedLast | app/page.tsx:34-36 | after `handleSave(e)` the day of `e` lists its old events followed by `e`; other days' lists are unchanged |
| Events.ListAfterDelete | app/page.tsx:38-40 | the day's list after a delete is the day's old list without the deleted id (the two filters commute) |
| Calendar.FromIndex | components/Calendar.tsx:24-39 | every linear month index names exactly one valid (year, month), month in [0,11] |
| Calendar.IndexInjective | components/Calendar.tsx:24-39 | two valid months with the same linear index are equal |
| Calendar.Following | components/Calendar.tsx:32-39 | from a valid month, `nextMonth` reaches a valid month whose linear index is one higher |
| Calendar.Preceding | components/Calendar.tsx:24-31 | from a valid month, `prevMonth` reaches a valid month whose linear index is one lower |
| Calendar.NavigationIsIndexStep | components/Calendar.tsx:24-39 | `nextMonth`/`prevMonth` agree with the successor/predecessor on the linear month index |
| Calendar.NavigationRoundTrip | components/Calendar.tsx:24-39 | `prevMonth` after `nextMonth`, and `nextMonth` after `prevMonth`, return to the same month |
| Calendar.FollowingNIndex | components/Calendar.tsx:32-39 | `n` presses of the next button move the linear index by exactly `n` |
| Calendar.HasEventDot | components/Calendar.tsx:69-83 | a day shows the dot iff some event in the list has that day's date |
| Calendar.MonthState.constructor | components/Calendar.tsx:18-20 | the state starts at today's year and month |
| Calendar.MonthState.PrevMonth | components/Calendar.tsx:24-31 | month 0 gives (year-1, 11), otherwise (year, month-1); a valid month stays valid and the index drops by one |
| Calendar.MonthState.NextMonth | components/Calendar.tsx:32-39 | month 11 gives (year+1, 0), otherwise (year, month+1); a valid month stays valid and the index rises by one |
| Modal.IsWhitespace | components/EventModal.tsx:42 | the characters `trim` strips: ECMAScript's WhiteSpace and LineTerminator code points |
| Modal.Trim | components/EventModal.tsx:42 | `title.trim()` is a contiguous piece of the title with no whitespace at either end; everything cut off is whitespace |
| Modal.TrimStart | components/EventModal.tsx:42 | removes exactly the maximal leading run of whitespace |
| Modal.TrimEnd | components/EventModal.tsx:42 | removes exactly the maximal trailing run of whitespace |
| Modal.TrimEmptyIffBlank | components/EventModal.tsx:42 | `title.trim()` is empty iff every character of `title` is whitespace |
| Modal.SaveRequest | components/EventModal.tsx:41-50 | an event is emitted iff the panel is shown and the buffer has a non-whitespace character; it carries the generated id, the panel's date and the untrimmed buffer |
| Modal.DayEvents | components/EventModal.tsx:36-39 | nothing is listed while the panel is closed or has no date; otherwise the list is `EventsOn` of that date: exactly its events, in order |
| Modal.DeleteRequest | components/EventModal.tsx:59-64 | a delete button exists only for a listed event of the shown panel, and the `k`-th button sends the `k`-th listed event's own id |
| Modal.EventModal.constructor | components/EventModal.tsx:28 | the buffer starts empty |
| Modal.EventModal.OnOpenOrDateChange | components/EventModal.tsx:30-34 | when `open` or `date` changes, an open panel empties the buffer and a closed one keeps it |
| Modal.EventModal.OnTitleChange | components/EventModal.tsx:71-76 | typing replaces the buffer with the input's value |
| Modal.EventModal.HandleSave | components/EventModal.tsx:41-50 | emits what `SaveRequest` describes; the buffer is `''` after a save and unchanged after a rejected one |
| Page.HomePage.constructor | app/page.tsx:14-16 | no events, no selected date, panel closed |
| Page.HomePage.HandleDateClick | app/page.tsx:29-32 | selects the day and opens the panel; events unchanged |
| Page.HomePage.HandleSave | app/page.tsx:34-36 | the list becomes the old list followed by the event; nothing else changes |
| Page.HomePage.HandleDelete | app/page.tsx:38-40 | the list becomes the old list without that id; nothing else changes |
| Page.HomePage.HandleClose | app/page.tsx:42-44 | closes the panel; selected date and events unchanged |
| Page.ClickDay | components/Calendar.tsx:76 | a day click selects the day, opens the panel and leaves an empty buffer, events unchanged |
| Page.ClickSave | app/page.tsx:50-56 | the add button appends exactly the event the panel emits, if any, and clears the buffer only then |
| Page.ClickDelete | components/EventModal.tsx:64 | a delete button removes the id of its own listed event from the page's list, nothing otherwise |
| Page.SavedEventListedLast | components/EventModal.tsx:41-48 | a save with a visible title adds the typed event, listed last for the selected day |
| Page.DeletedEventNotListed | components/EventModal.tsx:59-65 | after deleting a listed event, the day lists its other events in the same order and not the deleted one |
| Page.BlankTitleRejected | components/EventModal.tsx:42 | a title of a blank and a tab emits no event |
| Page.TitleSavedAsTyped | components/EventModal.tsx:42-47 | a title with a leading blank and visible characters is emitted as typed, with the panel's date and the generated id |
| Page.OnlyEventDeleted | components/EventModal.tsx:59-64 | the delete button of a day's only event sends its id, and deleting that id leaves the list empty |
| Page.TryBlankTitle | components/EventModal.tsx:41-50 | typing a blank title and pressing add leaves the events, the selected day and the open panel unchanged, and keeps the buffer |
| Page.SaveThenDelete | app/page.tsx:34-40 | saving a real title on an empty day and deleting it again leaves the list empty and the buffer cleared |
| Page.Session | app/page.tsx:29-40 | a session: open a day, a blank title is rejected, `" Dentist"` is saved untrimmed, and deleting it empties the list again |

## Left out

- Rendering: JSX, CSS classes, labels and the weekday header are not modelled.
- Storage: loading from and saving to `localStorage` through `JSON.parse` and
  `JSON.stringify` is browser I/O and is not modelled. The page starts with
  the empty list it declares. `JSON.parse` of a malformed blob throws, and
  nothing recovers from that.
- Dates: `Date` objects are not modelled. That covers `toISOString().slice(0, 10)`
  (a UTC conversion), `getDay`, `getDate`, and `getDaysInMonth`, `getToday`
  and `isSameDay`. The last three are imported from `utils/date`, which is
  not part of this model. The day string and today's month are inputs. The
  leading-blank count (`firstDay`) only pads the grid and is not modelled.
  The model does not decide which string a grid cell produces.
- Calendar.MonthState.constructor: takes today's month from the caller. It
  does not check that `getToday` yields a month in [0,11].
- Ids: `Math.random().toString(36)` is not modelled. The generated id is a
  parameter (`freshId`). Uniqueness is not enforced, and the code does not
  enforce it either.
- React scheduling: each handler is one atomic state transition.
  `Page.ClickDay` runs the buffer-reset effect on every day click. In the
  code, every click passes a new `Date` object or reopens the panel, so the
  effect's dependencies change each time.
- The event-dot condition and `getEventForDay` take the event list as it is
  at render time. Re-rendering is not modelled.
