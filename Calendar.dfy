/** The employee calendar (`EmployeeCalendar`): the shown month, the
    "DD/MM/YYYY" keys of its days, the events filed under each key, and the
    month grid built by two loops. The month length, the weekday of the
    first, and today's date come from the JavaScript `Date` object and are
    parameters. */
module Calendar {
  import opened Wrappers
  import opened Seqs
  import Text

  datatype Event = Event(id: int, title: string, date: string, eventType: string, description: Option<string>)

  /** The four seeded events. */
  const SeedEvents: seq<Event> := [
    Event(1, "Q4 Report Deadline", "20/11/2025", "deadline", Some("Submit quarterly financial report")),
    Event(2, "Team Meeting", "18/11/2025", "meeting", Some("Weekly team sync-up")),
    Event(3, "Project Review", "25/11/2025", "event", Some("Client project presentation")),
    Event(4, "Training Session", "22/11/2025", "event", Some("New software training"))]

  /** A calendar date with a 0-based month, as `getMonth()` gives it. */
  datatype Date = Date(year: int, month0: nat, day: nat)

  /** `formatDate(day)` in the shown month: day and month padded to two digits. */
  function FormatDate(day: nat, month0: nat, year: int): string
  {
    Text.PadStart2(Text.NatToString(day)) + "/" + Text.PadStart2(Text.NatToString(month0 + 1)) + "/"
    + Text.IntToString(year)
  }

  /** For a real day and month the key is "DD/MM/" and the year's digits. */
  lemma FormatDateLayout(day: nat, month0: nat, year: int)
    requires day < 100 && month0 < 12
    ensures FormatDate(day, month0, year) ==
      [Text.Digit(day / 10), Text.Digit(day % 10), '/', Text.Digit((month0 + 1) / 10), Text.Digit((month0 + 1) % 10), '/']
      + Text.IntToString(year)
  {
    var m := month0 + 1;
    Text.TwoDigits(day);
    Text.TwoDigits(m);
    SlashLayout(Text.PadStart2(Text.NatToString(day)), Text.PadStart2(Text.NatToString(m)), Text.IntToString(year));
  }

  lemma SlashLayout(dd: string, mm: string, y: string)
    requires |dd| == 2 && |mm| == 2
    ensures dd + "/" + mm + "/" + y == [dd[0], dd[1], '/', mm[0], mm[1], '/'] + y
  {
    assert dd + "/" + mm + "/" == [dd[0], dd[1], '/', mm[0], mm[1], '/'];
  }

  /** Different days of one month get different keys, so no event shows on two days. */
  lemma FormatDateInjective(d1: nat, d2: nat, month0: nat, year: int)
    requires d1 < 100 && d2 < 100 && month0 < 12 && d1 != d2
    ensures FormatDate(d1, month0, year) != FormatDate(d2, month0, year)
  {
    TwoDigitsInjective(d1, d2);
    KeysDiffer(Text.PadStart2(Text.NatToString(d1)), Text.PadStart2(Text.NatToString(d2)),
      Text.PadStart2(Text.NatToString(month0 + 1)), Text.IntToString(year));
  }

  /** Keys whose two-character day parts differ are different. */
  lemma KeysDiffer(p: string, q: string, m: string, y: string)
    requires |p| == 2 && |q| == 2 && p != q
    ensures p + "/" + m + "/" + y != q + "/" + m + "/" + y
  {
    var a, b := p + "/" + m + "/" + y, q + "/" + m + "/" + y;
    assert a[..2] == p && b[..2] == q;
  }

  /** Two numbers below one hundred have different two-digit forms. */
  lemma TwoDigitsInjective(d1: nat, d2: nat)
    requires d1 < 100 && d2 < 100 && d1 != d2
    ensures |Text.PadStart2(Text.NatToString(d1))| == 2 && |Text.PadStart2(Text.NatToString(d2))| == 2
    ensures Text.PadStart2(Text.NatToString(d1)) != Text.PadStart2(Text.NatToString(d2))
  {
    Text.TwoDigits(d1);
    Text.TwoDigits(d2);
    DigitPairsDiffer(d1, d2);
  }

  lemma DigitPairsDiffer(d1: nat, d2: nat)
    requires d1 < 100 && d2 < 100 && d1 != d2
    ensures [Text.Digit(d1 / 10), Text.Digit(d1 % 10)] != [Text.Digit(d2 / 10), Text.Digit(d2 % 10)]
  {
    assert d1 == 10 * (d1 / 10) + d1 % 10 && d2 == 10 * (d2 / 10) + d2 % 10;
    if d1 / 10 != d2 / 10 {
      DigitInjective(d1 / 10, d2 / 10);
    } else {
      DigitInjective(d1 % 10, d2 % 10);
    }
  }

  lemma DigitInjective(a: nat, b: nat)
    requires a < 10 && b < 10 && a != b
    ensures Text.Digit(a) != Text.Digit(b)
  {
  }

  /** `getEventsForDate`: the events filed under exactly that key, in order. */
  function EventsForDate(events: seq<Event>, dateStr: string): (r: seq<Event>)
    ensures IsSubsequence(r, events)
    ensures forall i :: 0 <= i < |r| ==> r[i].date == dateStr
    ensures forall i :: 0 <= i < |events| && events[i].date == dateStr ==> events[i] in r
    ensures forall e :: multiset(r)[e] == if e.date == dateStr then multiset(events)[e] else 0
  {
    FilterIsSubsequence(events, (e: Event) => e.date == dateStr);
    FilterMultiset(events, (e: Event) => e.date == dateStr);
    Filter(events, (e: Event) => e.date == dateStr)
  }

  /** `getTypeColor`. */
  function TypeColor(eventType: string): string
  {
    if eventType == "deadline" then "bg-red-100 text-red-700 hover:bg-red-100"
    else if eventType == "meeting" then "bg-blue-100 text-blue-700 hover:bg-blue-100"
    else if eventType == "event" then "bg-purple-100 text-purple-700 hover:bg-purple-100"
    else if eventType == "task" then "bg-green-100 text-green-700 hover:bg-green-100"
    else ""
  }

  /** The four event types get four distinct, non-empty classes; any other
      string gets none. */
  lemma TypeColorsDistinct(other: string)
    requires other != "deadline" && other != "meeting" && other != "event" && other != "task"
    ensures TypeColor(other) == ""
    ensures TypeColor("deadline") != TypeColor("meeting") && TypeColor("deadline") != TypeColor("event")
    ensures TypeColor("deadline") != TypeColor("task") && TypeColor("meeting") != TypeColor("event")
    ensures TypeColor("meeting") != TypeColor("task") && TypeColor("event") != TypeColor("task")
    ensures TypeColor("deadline") != "" && TypeColor("meeting") != "" && TypeColor("event") != "" && TypeColor("task") != ""
  {
    assert "meeting" != "deadline" && "event" != "deadline" && "task" != "deadline";
    assert "event" != "meeting" && "task" != "meeting" && "task" != "event";
    assert |TypeColor("deadline")| == 40 && |TypeColor("meeting")| == 43;
    assert |TypeColor("event")| == 49 && |TypeColor("task")| == 46;
  }

  /** What a day cell shows of its events: the first two titles, and
      "+N more" for the rest. */
  datatype Preview = Preview(shown: seq<Event>, more: Option<string>)

  function PreviewOf(dayEvents: seq<Event>): (p: Preview)
    ensures |p.shown| == if |dayEvents| < 2 then |dayEvents| else 2
    ensures p.shown == dayEvents[..|p.shown|]
    ensures p.more.Some? <==> |dayEvents| > 2
    ensures p.more.Some? ==> p.more.value == "+" + Text.NatToString(|dayEvents| - 2) + " more"
    ensures p.more.Some? ==> |p.shown| + (|dayEvents| - 2) == |dayEvents|
  {
    var shown := if |dayEvents| < 2 then dayEvents else dayEvents[..2];
    Preview(shown, if |dayEvents| > 2 then Some("+" + Text.NatToString(|dayEvents| - 2) + " more") else None)
  }

  /** A grid cell: a blank before the first of the month, or a numbered day
      with its key, whether it is today, and its events. */
  datatype Cell = EmptyCell | DayCell(day: nat, dateStr: string, isToday: bool, events: seq<Event>)

  /** The cell of a day of the shown month. */
  function DayOf(events: seq<Event>, day: nat, month0: nat, year: int, today: Date): Cell
  {
    DayCell(day, FormatDate(day, month0, year),
            today.day == day && today.month0 == month0 && today.year == year,
            EventsForDate(events, FormatDate(day, month0, year)))
  }

  /** The cells of the days 1..n of the shown month, in order. */
  function DayRun(events: seq<Event>, n: nat, month0: nat, year: int, today: Date): (r: seq<Cell>)
    ensures |r| == n
  {
    Tabulate(n, (d: nat) => DayOf(events, d, month0, year, today))
  }

  /** The cell at position d - 1 of the run is day d's. */
  lemma DayRunCells(events: seq<Event>, n: nat, month0: nat, year: int, today: Date)
    ensures forall d :: 1 <= d <= n ==> DayRun(events, n, month0, year, today)[d - 1] == DayOf(events, d, month0, year, today)
  {
    var cellOf := (d: nat) => DayOf(events, d, month0, year, today);
    TabulateAt(n, cellOf);
    forall d | 1 <= d <= n ensures DayRun(events, n, month0, year, today)[d - 1] == DayOf(events, d, month0, year, today) {
      assert DayRun(events, n, month0, year, today)[d - 1] == cellOf(d);
    }
  }

  /** The `<` and `>` buttons: `new Date(year, month - 1)` and
      `new Date(year, month + 1)`, which carry over into the year. */
  function PreviousMonth(year: int, month0: nat): (r: (int, nat))
    requires month0 < 12
    ensures r.1 < 12
    ensures month0 > 0 ==> r == (year, month0 - 1)
    ensures month0 == 0 ==> r == (year - 1, 11)
  {
    if month0 == 0 then (year - 1, 11) else (year, month0 - 1)
  }

  function NextMonth(year: int, month0: nat): (r: (int, nat))
    requires month0 < 12
    ensures r.1 < 12
    ensures month0 < 11 ==> r == (year, month0 + 1)
    ensures month0 == 11 ==> r == (year + 1, 0)
  {
    if month0 == 11 then (year + 1, 0) else (year, month0 + 1)
  }

  /** Going back a month and forward again returns to the same month, and
      the other way round; the month count advances by exactly one. */
  lemma MonthNavigationInverse(year: int, month0: nat)
    requires month0 < 12
    ensures NextMonth(PreviousMonth(year, month0).0, PreviousMonth(year, month0).1) == (year, month0)
    ensures PreviousMonth(NextMonth(year, month0).0, NextMonth(year, month0).1) == (year, month0)
    ensures NextMonth(year, month0).0 * 12 + NextMonth(year, month0).1 == year * 12 + month0 + 1
  {
  }

  class EmployeeCalendar {
    const events: seq<Event>
    var year: int
    var month0: nat
    var selectedDate: Option<string>

    ghost predicate Valid()
      reads this
    {
      month0 < 12
    }

    /** The calendar opens on today's month with no date selected. */
    constructor (today: Date)
      requires today.month0 < 12
      ensures Valid()
      ensures events == SeedEvents && year == today.year && month0 == today.month0 && selectedDate == None
    {
      events := SeedEvents;
      year, month0, selectedDate := today.year, today.month0, None;
    }

    method GoToPreviousMonth()
      requires Valid()
      modifies this
      ensures Valid()
      ensures (year, month0) == PreviousMonth(old(year), old(month0)) && selectedDate == old(selectedDate)
    {
      var ym := PreviousMonth(year, month0);
      year, month0 := ym.0, ym.1;
    }

    method GoToNextMonth()
      requires Valid()
      modifies this
      ensures Valid()
      ensures (year, month0) == NextMonth(old(year), old(month0)) && selectedDate == old(selectedDate)
    {
      var ym := NextMonth(year, month0);
      year, month0 := ym.0, ym.1;
    }

    /** Clicking a day cell. */
    method SelectDate(dateStr: string)
      modifies this
      ensures selectedDate == Some(dateStr) && year == old(year) && month0 == old(month0)
    {
      selectedDate := Some(dateStr);
    }

    /** The grid of the shown month: `firstDay` blanks, then the days
        1..`daysInMonth` in order (see `DayRunCells`). */
    method Days(firstDay: nat, daysInMonth: nat, today: Date) returns (days: seq<Cell>)
      ensures |days| == firstDay + daysInMonth
      ensures forall i :: 0 <= i < firstDay ==> days[i] == EmptyCell
      ensures days[firstDay..] == DayRun(events, daysInMonth, month0, year, today)
    {
      days := [];
      var i := 0;
      while i < firstDay
        invariant 0 <= i <= firstDay
        invariant |days| == i
        invariant forall j :: 0 <= j < i ==> days[j] == EmptyCell
      {
        days := days + [EmptyCell];
        i := i + 1;
      }
      ghost var blanks := days;
      var day := 1;
      ghost var evs, m0, y := events, month0, year;
      ghost var cellOf := (d: nat) => DayOf(evs, d, m0, y, today);
      while day <= daysInMonth
        invariant 1 <= day <= daysInMonth + 1
        invariant days == blanks + Tabulate(day - 1, cellOf)
      {
        var cell := DayCellFor(day, today);
        AppendTabulated(blanks, day - 1, cellOf, cell);
        days := days + [cell];
        day := day + 1;
      }
      assert Tabulate(daysInMonth, cellOf) == DayRun(events, daysInMonth, month0, year, today);
      assert days[..firstDay] == blanks;
    }

    /** One numbered cell: its key, its events and whether it is today. */
    method DayCellFor(day: nat, today: Date) returns (cell: Cell)
      ensures cell == DayOf(events, day, month0, year, today)
    {
      var dateStr := FormatDate(day, month0, year);
      var dayEvents := EventsForDate(events, dateStr);
      var isToday := today.day == day && today.month0 == month0 && today.year == year;
      cell := DayCell(day, dateStr, isToday, dayEvents);
    }
  }

  /** In a grid of real days at most one cell is marked as today. */
  lemma OneToday(events: seq<Event>, daysInMonth: nat, month0: nat, year: int, today: Date, k1: nat, k2: nat)
    requires k1 < daysInMonth && k2 < daysInMonth && k1 != k2
    ensures !(DayOf(events, k1 + 1, month0, year, today).isToday && DayOf(events, k2 + 1, month0, year, today).isToday)
  {
  }
}
