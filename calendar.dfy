/** The month grid: the displayed (year, month) and its navigation, and the
    per-day event queries. Months are JavaScript's, 0 for January to 11 for
    December. */
module Calendar {
  import opened Events

  /** A displayed month. */
  datatype YearMonth = YearMonth(year: int, month: int) {
    predicate Valid() {
      0 <= month <= 11
    }

    /** The number of months since January of year 0. */
    function Index(): int {
      year * 12 + month
    }
  }

  /** The month with linear index `i`, the inverse of `Index`. */
  function FromIndex(i: int): (r: YearMonth)
    ensures r.Valid() && r.Index() == i
  {
    YearMonth(i / 12, i % 12)
  }

  /** Two valid months with the same index are the same month. */
  lemma IndexInjective(a: YearMonth, b: YearMonth)
    requires a.Valid() && b.Valid()
    requires a.Index() == b.Index()
    ensures a == b
  {
    assert (a.year - b.year) * 12 == b.month - a.month;
  }

  /** The month `nextMonth` moves to. */
  function Following(ym: YearMonth): (r: YearMonth)
    ensures ym.Valid() ==> r.Valid() && r.Index() == ym.Index() + 1
  {
    if ym.month == 11 then YearMonth(ym.year + 1, 0) else YearMonth(ym.year, ym.month + 1)
  }

  /** The month `prevMonth` moves to. */
  function Preceding(ym: YearMonth): (r: YearMonth)
    ensures ym.Valid() ==> r.Valid() && r.Index() == ym.Index() - 1
  {
    if ym.month == 0 then YearMonth(ym.year - 1, 11) else YearMonth(ym.year, ym.month - 1)
  }

  /** `nextMonth` and `prevMonth` are the successor and predecessor on the
      linear month index. */
  lemma NavigationIsIndexStep(ym: YearMonth)
    requires ym.Valid()
    ensures Following(ym) == FromIndex(ym.Index() + 1)
    ensures Preceding(ym) == FromIndex(ym.Index() - 1)
  {
    IndexInjective(Following(ym), FromIndex(ym.Index() + 1));
    IndexInjective(Preceding(ym), FromIndex(ym.Index() - 1));
  }

  /** Going forward and back, or back and forward, returns to the same month. */
  lemma NavigationRoundTrip(ym: YearMonth)
    requires ym.Valid()
    ensures Preceding(Following(ym)) == ym
    ensures Following(Preceding(ym)) == ym
  {
    IndexInjective(Preceding(Following(ym)), ym);
    IndexInjective(Following(Preceding(ym)), ym);
  }

  /** The month reached by `n` clicks on the next-month button. */
  function FollowingN(ym: YearMonth, n: nat): YearMonth {
    if n == 0 then ym else Following(FollowingN(ym, n - 1))
  }

  /** `n` clicks forward move the linear index by exactly `n`. */
  lemma {:induction false} FollowingNIndex(ym: YearMonth, n: nat)
    requires ym.Valid()
    ensures FollowingN(ym, n) == FromIndex(ym.Index() + n)
  {
    if n == 0 {
      IndexInjective(ym, FromIndex(ym.Index()));
    } else {
      FollowingNIndex(ym, n - 1);
      NavigationIsIndexStep(FollowingN(ym, n - 1));
    }
  }

  /** Whether the cell of `day` shows the event dot: the list of that day's
      events is non-empty. */
  function HasEventDot(events: seq<Event>, day: string): (b: bool)
    ensures b <==> exists e :: e in events && e.date == day
  {
    var shown := EventsOn(events, day);
    assert shown != [] ==> shown[0] in shown;
    |shown| > 0
  }

  /** The `year` and `month` state of the calendar component. */
  class MonthState {
    var year: int
    var month: int

    function Current(): YearMonth
      reads this
    {
      YearMonth(year, month)
    }

    /** The state starts at today's month, which the caller supplies. */
    constructor (today: YearMonth)
      ensures Current() == today
    {
      year := today.year;
      month := today.month;
    }

    /** `prevMonth`: January steps back to December of the previous year. */
    method PrevMonth()
      modifies this
      ensures old(month) == 0 ==> year == old(year) - 1 && month == 11
      ensures old(month) != 0 ==> year == old(year) && month == old(month) - 1
      ensures Current() == Preceding(old(Current()))
      ensures old(Current()).Valid() ==> Current().Valid() && Current().Index() == old(Current().Index()) - 1
    {
      if month == 0 {
        year := year - 1;
        month := 11;
      } else {
        month := month - 1;
      }
    }

    /** `nextMonth`: December steps on to January of the next year. */
    method NextMonth()
      modifies this
      ensures old(month) == 11 ==> year == old(year) + 1 && month == 0
      ensures old(month) != 11 ==> year == old(year) && month == old(month) + 1
      ensures Current() == Following(old(Current()))
      ensures old(Current()).Valid() ==> Current().Valid() && Current().Index() == old(Current().Index()) + 1
    {
      if month == 11 {
        year := year + 1;
        month := 0;
      } else {
        month := month + 1;
      }
    }
  }
}
