/**
 * Worked days for the "today's events" engine. Times are milliseconds
 * since midnight of the day; `parse` is only pinned down on the strings
 * the items use.
 */
module Scenarios {

  import opened Wrappers
  import opened Decimal
  import opened GoogleCalendar

  const Day: string := "2026-10-11"

  const T0900: int := 32400000
  const T0915: int := 33300000
  const T0930: int := 34200000
  const T0945: int := 35100000
  const T1000: int := 36000000
  const T1030: int := 37800000

  predicate ParsesDay(parse: Parser) {
    && parse("09:00") == Some(T0900)
    && parse("09:30") == Some(T0930)
    && parse("10:00") == Some(T1000)
    && parse("10:30") == Some(T1030)
  }

  function Timed(id: string, start: string, end: string): RawEvent {
    RawEvent(Some(id), Some(id), Some(start), None, Some(end), None, None)
  }

  /** Two items that both pass the filter are kept as they are. */
  lemma {:induction false} BothKept(a: RawEvent, b: RawEvent, includeAllDay: bool)
    requires Keep(a, includeAllDay) && Keep(b, includeAllDay)
    ensures FilterItems([a, b], includeAllDay) == [a, b]
  {
    assert [a, b][1..] == [b];
  }

  /** During the first of two meetings: the first is flagged, the second is not. */
  lemma {:induction false} DuringFirstMeeting(parse: Parser)
    requires ParsesDay(parse)
    ensures var r := TodayEvents([Timed("a", "09:00", "09:30"), Timed("b", "10:00", "10:30")], true, T0915, Day, parse);
      && |r.events| == 2 && r.events[0].isNext && !r.events[1].isNext
  {
    var items := [Timed("a", "09:00", "09:30"), Timed("b", "10:00", "10:30")];
    BothKept(items[0], items[1], true);
    assert InActiveWindow(items[0], T0915, parse);
    assert !InActiveWindow(items[1], T0915, parse);
    TodayEventsRecords(items, true, T0915, Day, parse, 0);
    TodayEventsRecords(items, true, T0915, Day, parse, 1);
  }

  /** In the gap between two meetings: no window holds `now`, so the later one becomes next. */
  lemma {:induction false} BetweenMeetings(parse: Parser)
    requires ParsesDay(parse)
    ensures var r := TodayEvents([Timed("a", "09:00", "09:30"), Timed("b", "10:00", "10:30")], true, T0945, Day, parse);
      && |r.events| == 2 && !r.events[0].isNext && r.events[1].isNext
  {
    var items := [Timed("a", "09:00", "09:30"), Timed("b", "10:00", "10:30")];
    BothKept(items[0], items[1], true);
    assert !InActiveWindow(items[0], T0945, parse);
    assert !InActiveWindow(items[1], T0945, parse);
    var mapped := NormalizeAll(items, T0945, parse);
    assert !Upcoming(mapped[0], T0945, parse);
    assert Upcoming(mapped[1], T0945, parse);
    TodayEventsRecords(items, true, T0945, Day, parse, 0);
    TodayEventsRecords(items, true, T0945, Day, parse, 1);
  }

  /** After the only meeting: nothing is flagged. */
  lemma {:induction false} AfterLastMeeting(parse: Parser)
    requires ParsesDay(parse)
    ensures var r := TodayEvents([Timed("a", "09:00", "09:30")], true, T1000, Day, parse);
      && |r.events| == 1 && !r.events[0].isNext
  {
    var items := [Timed("a", "09:00", "09:30")];
    assert FilterItems(items, true) == items;
    assert !InActiveWindow(items[0], T1000, parse);
    var mapped := NormalizeAll(items, T1000, parse);
    assert !Upcoming(mapped[0], T1000, parse);
    TodayEventsRecords(items, true, T1000, Day, parse, 0);
  }

  /** Two overlapping meetings that both hold `now` are both flagged. */
  lemma {:induction false} OverlappingMeetingsBothFlagged(parse: Parser)
    requires ParsesDay(parse)
    ensures var r := TodayEvents([Timed("a", "09:00", "10:00"), Timed("b", "09:30", "10:30")], true, T0945, Day, parse);
      && |r.events| == 2 && r.events[0].isNext && r.events[1].isNext
  {
    var items := [Timed("a", "09:00", "10:00"), Timed("b", "09:30", "10:30")];
    BothKept(items[0], items[1], true);
    assert InActiveWindow(items[0], T0945, parse);
    assert InActiveWindow(items[1], T0945, parse);
    TodayEventsRecords(items, true, T0945, Day, parse, 0);
    TodayEventsRecords(items, true, T0945, Day, parse, 1);
  }

  /** Equal starts keep the provider's order, numbered 1 and 2. */
  lemma {:induction false} EqualStartsKeepProviderOrder(parse: Parser)
    requires ParsesDay(parse)
    ensures var r := TodayEvents([Timed("B", "09:00", "09:30"), Timed("A", "09:00", "09:30")], true, T0915, Day, parse);
      && |r.events| == 2
      && r.events[0].id == "B" && r.events[0].priority == 1
      && r.events[1].id == "A" && r.events[1].priority == 2
  {
    var items := [Timed("B", "09:00", "09:30"), Timed("A", "09:00", "09:30")];
    BothKept(items[0], items[1], true);
    TodayEventsRecords(items, true, T0915, Day, parse, 0);
    TodayEventsRecords(items, true, T0915, Day, parse, 1);
  }

  /** Two records give the line "2 event(s) for <day>". */
  lemma {:induction false} TwoEventsLine(day: string)
    ensures SummaryLine(2, day) == "2 event(s) for " + day
  {
    assert NatToDecimal(2) == "2";
    assert SummaryLine(2, day) == "2" + CountTail(day);
  }

  /** No items: no records and the "No events" line. */
  lemma {:induction false} EmptyDay(parse: Parser)
    ensures var r := TodayEvents([], true, T0900, Day, parse);
      r.events == [] && r.prioritized == [] && r.summary == "No events for " + Day
  {
  }

  /** An item with no start at all is dropped when all-day items are not wanted, kept otherwise. */
  lemma {:induction false} StartlessItem(parse: Parser)
    ensures var e := RawEvent(Some("x"), Some("x"), None, None, None, None, None);
      && TodayEvents([e], false, T0900, Day, parse).events == []
      && |TodayEvents([e], true, T0900, Day, parse).events| == 1
  {
    var e := RawEvent(Some("x"), Some("x"), None, None, None, None, None);
    assert FilterItems([e], false) == [];
    assert FilterItems([e], true) == [e];
  }
}
