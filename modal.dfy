/** The day panel: the title buffer, the save guard built on JavaScript's
    `String.prototype.trim`, the listed events and their delete buttons. */
module Modal {
  import opened Events

  /** The code points `trim` strips: ECMAScript's WhiteSpace (tab, vertical
      tab, form feed, space, no-break space, byte order mark and the Unicode
      space separators) and LineTerminator (line feed, carriage return, line
      and paragraph separators). */
  predicate IsWhitespace(c: char) {
    var n := c as int;
    n == 0x09 || n == 0x0A || n == 0x0B || n == 0x0C || n == 0x0D || n == 0x20
    || n == 0xA0 || n == 0x1680 || (0x2000 <= n <= 0x200A)
    || n == 0x2028 || n == 0x2029 || n == 0x202F || n == 0x205F
    || n == 0x3000 || n == 0xFEFF
  }

  /** `s` without its leading whitespace. */
  function TrimStart(s: string): (r: string)
    ensures |r| <= |s| && r == s[|s| - |r|..]
    ensures forall i :: 0 <= i < |s| - |r| ==> IsWhitespace(s[i])
    ensures r == [] || !IsWhitespace(r[0])
  {
    if s != [] && IsWhitespace(s[0]) then TrimStart(s[1..]) else s
  }

  /** `s` without its trailing whitespace. */
  function TrimEnd(s: string): (r: string)
    ensures |r| <= |s| && r == s[..|r|]
    ensures forall i :: |r| <= i < |s| ==> IsWhitespace(s[i])
    ensures r == [] || !IsWhitespace(r[|r| - 1])
  {
    if s != [] && IsWhitespace(s[|s| - 1]) then TrimEnd(s[..|s| - 1]) else s
  }

  /** `r` is the piece of `s` starting at `lo`, and everything of `s` before
      and after that piece is whitespace. */
  ghost predicate CutsOnlyWhitespace(s: string, lo: int, r: string) {
    && 0 <= lo <= lo + |r| <= |s| && r == s[lo..lo + |r|]
    && (forall i :: 0 <= i < lo ==> IsWhitespace(s[i]))
    && (forall i :: lo + |r| <= i < |s| ==> IsWhitespace(s[i]))
  }

  /** Cutting whitespace off the front of `s`, giving `t`, and then off the
      back of `t`, giving `r`, cuts only whitespace off `s`. */
  lemma PieceOfSuffix(s: string, t: string, r: string)
    requires |t| <= |s| && t == s[|s| - |t|..]
    requires forall i :: 0 <= i < |s| - |t| ==> IsWhitespace(s[i])
    requires |r| <= |t| && r == t[..|r|]
    requires forall i :: |r| <= i < |t| ==> IsWhitespace(t[i])
    ensures CutsOnlyWhitespace(s, |s| - |t|, r)
  {
    var lo := |s| - |t|;
    assert r == s[lo..lo + |r|];
    forall i | lo + |r| <= i < |s|
      ensures IsWhitespace(s[i])
    {
      assert s[i] == t[i - lo];
    }
  }

  /** `s.trim()`: the piece of `s` after its leading whitespace that neither
      starts nor ends with whitespace, everything cut off on either side being
      whitespace. */
  function Trim(s: string): (r: string)
    ensures CutsOnlyWhitespace(s, |s| - |TrimStart(s)|, r)
    ensures r == [] || (!IsWhitespace(r[0]) && !IsWhitespace(r[|r| - 1]))
  {
    var t := TrimStart(s);
    var r := TrimEnd(t);
    PieceOfSuffix(s, t, r);
    assert r != [] ==> r[0] == t[0];
    r
  }

  /** `s.trim()` is the empty (falsy) string exactly when every character of
      `s` is whitespace. */
  lemma TrimEmptyIffBlank(s: string)
    ensures Trim(s) == "" <==> forall i :: 0 <= i < |s| ==> IsWhitespace(s[i])
  {
    var t := TrimStart(s);
    if t != [] {
      assert t[0] == s[|s| - |t|];
    }
  }

  /** The event `handleSave` passes to `onSave`, if any, when the panel is
      shown for `date` (open and not null), the buffer holds `title` and
      `freshId` is the generated id. Nothing is emitted while the panel is
      hidden, since then it renders no save button. */
  function SaveRequest(open: bool, date: Option<string>, title: string, freshId: string): (r: Option<Event>)
    ensures r.Some? <==> open && date.Some? && exists i :: 0 <= i < |title| && !IsWhitespace(title[i])
    ensures r.Some? ==> r.value.id == freshId && r.value.date == date.value && r.value.title == title
  {
    TrimEmptyIffBlank(title);
    if open && date.Some? && Trim(title) != "" then Some(Event(freshId, date.value, title))
    else None
  }

  /** What the panel lists: nothing while it is hidden, otherwise `dayEvents`. */
  function DayEvents(open: bool, date: Option<string>, events: seq<Event>): (r: Option<seq<Event>>)
    ensures r.Some? <==> open && date.Some?
    ensures r.Some? ==> forall e :: e in r.value <==> e in events && e.date == date.value
    ensures r.Some? ==> r.value == EventsOn(events, date.value)
  {
    if open && date.Some? then Some(EventsOn(events, date.value)) else None
  }

  /** The id the delete button of the `k`-th listed event passes to
      `onDelete`: that listed event's own id. There is no such button while
      the panel is hidden or past the end of the list. */
  function DeleteRequest(open: bool, date: Option<string>, events: seq<Event>, k: nat): (r: Option<string>)
    ensures r.Some? <==> open && date.Some? && k < |EventsOn(events, date.value)|
    ensures r.Some? ==> r.value == EventsOn(events, date.value)[k].id
  {
    var listed := DayEvents(open, date, events);
    if listed.Some? && k < |listed.value| then
      Some(listed.value[k].id)
    else None
  }

  /** The panel's `title` state. */
  class EventModal {
    var title: string

    constructor ()
      ensures title == ""
    {
      title := "";
    }

    /** The effect run when `open` or `date` changes: an open panel starts
        with an empty buffer. */
    method OnOpenOrDateChange(open: bool)
      modifies this
      ensures title == if open then "" else old(title)
    {
      if open {
        title := "";
      }
    }

    /** Typing in the input replaces the buffer. */
    method OnTitleChange(value: string)
      modifies this
      ensures title == value
    {
      title := value;
    }

    /** `handleSave`: emits the event for a buffer with a visible character
        and then clears the buffer; otherwise emits nothing and keeps it. */
    method HandleSave(open: bool, date: Option<string>, freshId: string) returns (saved: Option<Event>)
      modifies this
      ensures saved == SaveRequest(open, date, old(title), freshId)
      ensures title == if saved.Some? then "" else old(title)
    {
      saved := None;
      if open && date.Some? {
        if Trim(title) != "" {
          saved := Some(Event(freshId, date.value, title));
          title := "";
        }
      }
    }
  }
}
