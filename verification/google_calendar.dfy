/**
 * The "today's events" engine of lib/google-calendar.ts: the filter, the
 * normalising map, the "next up" fallback and the summary line of
 * `fetchTodayEvents`, plus the `trim` helper and `parseEventStart`.
 *
 * Instants are integer milliseconds. `new Date(s).getTime()` is the
 * parameter `parse`, where `None` stands for NaN (an unparsable string);
 * the model itself fixes only that the empty string gives NaN.
 */
module GoogleCalendar {

  import opened Wrappers
  import opened Decimal

  /** A calendar item as the provider returns it; every field may be missing. */
  datatype RawEvent = RawEvent(
    id: Option<string>,
    summary: Option<string>,
    startDateTime: Option<string>,
    startDate: Option<string>,
    endDateTime: Option<string>,
    endDate: Option<string>,
    location: Option<string>)

  /** The normalised record handed to callers and to the schedule widget. */
  datatype CalendarEvent = CalendarEvent(
    id: string,
    summary: string,
    start: string,
    end: string,
    isAllDay: bool,
    location: Option<string>,
    priority: nat,
    isNext: bool)

  datatype TodayEventsResult = TodayEventsResult(
    events: seq<CalendarEvent>,
    prioritized: seq<CalendarEvent>,
    summary: string)

  /** `new Date(s).getTime()` for a non-empty `s`; `None` is NaN. */
  type Parser = string -> Option<int>

  /** Grace, in milliseconds, on both edges of an event's active window. */
  const ActiveToleranceMs: int := 60000

  const NoTitle: string := "(No title)"

  // ---------------------------------------------------------------------
  // JavaScript value helpers
  // ---------------------------------------------------------------------

  /** `!!o` for an optional string: present and non-empty. */
  predicate Truthy(o: Option<string>) {
    o.Some? && o.value != ""
  }

  /** `a ?? b`: falls through only on a missing value, not on "". */
  function Nullish(a: Option<string>, b: Option<string>): (r: Option<string>)
    ensures r.None? <==> a.None? && b.None?
    ensures a.Some? ==> r == a
    ensures a.None? ==> r == b
  {
    if a.Some? then a else b
  }

  /** `o ?? ""`. */
  function OrEmpty(o: Option<string>): string {
    if o.Some? then o.value else ""
  }

  /** `new Date(s).getTime()`: the empty string is an invalid date. */
  function Time(parse: Parser, s: string): (t: Option<int>)
    ensures s == "" ==> t.None?
    ensures s != "" ==> t == parse(s)
  {
    if s == "" then None else parse(s)
  }

  // ---------------------------------------------------------------------
  // trim
  // ---------------------------------------------------------------------

  /** The characters `String.prototype.trim` removes: white space and line terminators. */
  const JsWhitespace: set<char> := {
    '\t', '\n', '\U{B}', '\U{C}', '\r', ' ', '\U{A0}', '\U{1680}', '\U{2000}', '\U{2001}',
    '\U{2002}', '\U{2003}', '\U{2004}', '\U{2005}', '\U{2006}', '\U{2007}', '\U{2008}',
    '\U{2009}', '\U{200A}', '\U{2028}', '\U{2029}', '\U{202F}', '\U{205F}', '\U{3000}',
    '\U{FEFF}'
  }

  predicate IsJsWhitespace(c: char) {
    c in JsWhitespace
  }

  predicate IsQuote(c: char) {
    c == '"' || c == '\''
  }

  /** The first position at or after `from` that does not hold white space. */
  function SkipWhitespace(s: string, from: nat): (k: nat)
    requires from <= |s|
    ensures from <= k <= |s|
    ensures forall j :: from <= j < k ==> IsJsWhitespace(s[j])
    ensures k < |s| ==> !IsJsWhitespace(s[k])
    decreases |s| - from
  {
    if from < |s| && IsJsWhitespace(s[from]) then SkipWhitespace(s, from + 1) else from
  }

  /** The start of the run of white space that ends at `hi`, not going below `lo`. */
  function SkipWhitespaceBack(s: string, hi: nat, lo: nat): (k: nat)
    requires lo <= hi <= |s|
    ensures lo <= k <= hi
    ensures forall j :: k <= j < hi ==> IsJsWhitespace(s[j])
    ensures k > lo ==> !IsJsWhitespace(s[k - 1])
    decreases hi
  {
    if hi > lo && IsJsWhitespace(s[hi - 1]) then SkipWhitespaceBack(s, hi - 1, lo) else hi
  }

  /** `piece` occurs in `s` at offset `i`. */
  predicate PieceAt(piece: string, s: string, i: int) {
    0 <= i <= |s| - |piece| && piece == s[i..i + |piece|]
  }

  /** How much white space `trim` drops from the front of `s`. */
  function TrimOffset(s: string): (i: nat)
    ensures i <= |s|
  {
    SkipWhitespace(s, 0)
  }

  /**
   * `String.prototype.trim`: the piece of `s` left between a run of white
   * space at the front and one at the back, with no white space at its ends.
   */
  function JsTrim(s: string): (r: string)
    ensures PieceAt(r, s, TrimOffset(s))
    ensures forall j :: 0 <= j < TrimOffset(s) ==> IsJsWhitespace(s[j])
    ensures forall j :: TrimOffset(s) + |r| <= j < |s| ==> IsJsWhitespace(s[j])
    ensures r != [] ==> !IsJsWhitespace(r[0]) && !IsJsWhitespace(r[|r| - 1])
  {
    var a := SkipWhitespace(s, 0);
    var b := SkipWhitespaceBack(s, |s|, a);
    s[a..b]
  }

  /** 1 when `t` starts with a quote, else 0. */
  function LeadingQuote(t: string): nat {
    if t != [] && IsQuote(t[0]) then 1 else 0
  }

  /** 1 when `t` ends with a quote not already taken as the leading one, else 0. */
  function TrailingQuote(t: string): (n: nat)
    ensures LeadingQuote(t) + n <= |t|
  {
    if |t| > LeadingQuote(t) && IsQuote(t[|t| - 1]) then 1 else 0
  }

  /**
   * `.replace(/^["']|["']$/g, "")`: one leading quote and one trailing quote;
   * a lone quote is consumed by the leading alternative only.
   */
  function StripQuotes(t: string): (r: string)
    ensures r == t[LeadingQuote(t)..|t| - TrailingQuote(t)]
  {
    var u := if t != [] && IsQuote(t[0]) then t[1..] else t;
    if u != [] && IsQuote(u[|u| - 1]) then u[..|u| - 1] else u
  }


  /**
   * Quote stripping removes at most one quote from each end and nothing
   * else; it changes its input exactly when one end is a quote.
   */
  lemma {:induction false} StripQuotesShape(t: string)
    ensures var r := StripQuotes(t);
      && |t| - 2 <= |r| <= |t|
      && (t == r
          || (t != [] && IsQuote(t[0]) && t == [t[0]] + r)
          || (t != [] && IsQuote(t[|t| - 1]) && t == r + [t[|t| - 1]])
          || (|t| >= 2 && IsQuote(t[0]) && IsQuote(t[|t| - 1]) && t == [t[0]] + r + [t[|t| - 1]]))
      && (r == t <==> t == [] || (!IsQuote(t[0]) && !IsQuote(t[|t| - 1])))
      && (|t| >= 2 && IsQuote(t[0]) && IsQuote(t[|t| - 1]) ==> r == t[1..|t| - 1])
  {
    var u := if t != [] && IsQuote(t[0]) then t[1..] else t;
    if t != [] && IsQuote(t[0]) {
      assert t == [t[0]] + u;
      if u != [] && IsQuote(u[|u| - 1]) {
        assert u == u[..|u| - 1] + [t[|t| - 1]];
      }
    } else if u != [] && IsQuote(u[|u| - 1]) {
      assert t == u[..|u| - 1] + [t[|t| - 1]];
    }
  }

  lemma {:induction false} SliceOfSlice(src: string, i: nat, t: string, lead: nat, r: string)
    requires i + |t| <= |src| && t == src[i..i + |t|]
    requires lead + |r| <= |t| && r == t[lead..lead + |r|]
    ensures 0 <= i + lead <= i + lead + |r| <= |src| && r == src[i + lead..i + lead + |r|]
  {
    assert forall k :: 0 <= k < |r| ==> r[k] == t[lead + k] == src[i + lead + k];
  }

  /** Quote stripping a piece of `src` leaves a piece of `src`, with the shape of `StripQuotesShape`. */
  lemma {:induction false} StrippedPiece(src: string, t: string, i: nat)
    requires PieceAt(t, src, i)
    ensures exists j :: PieceAt(StripQuotes(t), src, j)
    ensures |t| - 2 <= |StripQuotes(t)| <= |t|
    ensures StripQuotes(t) == t <==> t == [] || (!IsQuote(t[0]) && !IsQuote(t[|t| - 1]))
  {
    var r := StripQuotes(t);
    StripQuotesShape(t);
    var lead := LeadingQuote(t);
    SliceOfSlice(src, i, t, lead, r);
    assert PieceAt(r, src, i + lead);
  }

  /**
   * `trim(s)` at lib/google-calendar.ts:50-52: the white-space-trimmed form
   * of `s ?? ""` less one quote at its front and one at its back, if there;
   * so a contiguous piece of both that form and the input, at most two
   * characters shorter than the form, and equal to it exactly when neither
   * of its ends is a quote.
   */
  function Trim(s: Option<string>): (r: string)
    ensures var t := JsTrim(OrEmpty(s));
      && r == t[LeadingQuote(t)..|t| - TrailingQuote(t)]
      && PieceAt(r, t, LeadingQuote(t))
      && |t| - 2 <= |r| <= |t|
      && (r == t <==> t == [] || (!IsQuote(t[0]) && !IsQuote(t[|t| - 1])))
    ensures exists i :: PieceAt(r, OrEmpty(s), i)
  {
    var src := OrEmpty(s);
    var t := JsTrim(src);
    StrippedPiece(src, t, TrimOffset(src));
    StripQuotes(t)
  }

  // ---------------------------------------------------------------------
  // filter
  // ---------------------------------------------------------------------

  /** The predicate of `.filter(...)` at lib/google-calendar.ts:141-144. */
  predicate Keep(e: RawEvent, includeAllDay: bool)
    ensures Keep(e, includeAllDay) <==>
      Truthy(e.id) && Truthy(e.summary) && (includeAllDay || Truthy(e.startDateTime))
  {
    if !includeAllDay && !Truthy(e.startDateTime) then false
    else Truthy(e.id) && Truthy(e.summary)
  }

  /** The items that survive the filter, in provider order. */
  function FilterItems(items: seq<RawEvent>, includeAllDay: bool): (kept: seq<RawEvent>)
    ensures |kept| <= |items|
    ensures forall i :: 0 <= i < |kept| ==> Keep(kept[i], includeAllDay)
  {
    if items == [] then []
    else (if Keep(items[0], includeAllDay) then [items[0]] else [])
         + FilterItems(items[1..], includeAllDay)
  }

  /** An item is in the output exactly when it is an input item the filter keeps. */
  lemma {:induction false} FilterMembership(items: seq<RawEvent>, includeAllDay: bool, e: RawEvent)
    ensures e in FilterItems(items, includeAllDay) <==> e in items && Keep(e, includeAllDay)
  {
    if items != [] {
      FilterMembership(items[1..], includeAllDay, e);
      assert items == [items[0]] + items[1..];
    }
  }

  /** Filtering distributes over concatenation, so the provider's order is kept. */
  lemma {:induction false} FilterAppend(a: seq<RawEvent>, b: seq<RawEvent>, includeAllDay: bool)
    ensures FilterItems(a + b, includeAllDay) == FilterItems(a, includeAllDay) + FilterItems(b, includeAllDay)
  {
    if a != [] {
      assert (a + b)[1..] == a[1..] + b;
      FilterAppend(a[1..], b, includeAllDay);
    } else {
      assert a + b == b;
    }
  }

  predicate SortedBy(items: seq<RawEvent>, key: RawEvent -> int) {
    forall i, j :: 0 <= i < j < |items| ==> key(items[i]) <= key(items[j])
  }

  /**
   * The engine never re-sorts: if the provider returns its items ordered
   * by some key (`orderBy: "startTime"`), the kept items are ordered by it too.
   */
  lemma {:induction false} FilterKeepsOrder(items: seq<RawEvent>, includeAllDay: bool, key: RawEvent -> int)
    requires SortedBy(items, key)
    ensures SortedBy(FilterItems(items, includeAllDay), key)
  {
    if items != [] {
      var rest := FilterItems(items[1..], includeAllDay);
      FilterKeepsOrder(items[1..], includeAllDay, key);
      forall j | 0 <= j < |rest|
        ensures key(items[0]) <= key(rest[j])
      {
        FilterMembership(items[1..], includeAllDay, rest[j]);
      }
    }
  }

  // ---------------------------------------------------------------------
  // map
  // ---------------------------------------------------------------------

  /** `e.start?.dateTime ?? e.start?.date ?? ""`. */
  function StartString(e: RawEvent): (s: string)
    ensures e.startDateTime.Some? ==> s == e.startDateTime.value
    ensures e.startDateTime.None? && e.startDate.Some? ==> s == e.startDate.value
    ensures e.startDateTime.None? && e.startDate.None? ==> s == ""
  {
    OrEmpty(Nullish(e.startDateTime, e.startDate))
  }

  /** `e.end?.dateTime ?? e.end?.date ?? ""`. */
  function EndString(e: RawEvent): (s: string)
    ensures e.endDateTime.Some? ==> s == e.endDateTime.value
    ensures e.endDateTime.None? && e.endDate.Some? ==> s == e.endDate.value
    ensures e.endDateTime.None? && e.endDate.None? ==> s == ""
  {
    OrEmpty(Nullish(e.endDateTime, e.endDate))
  }

  /**
   * `parseEventStart(e).getTime()`: the epoch when the item has no usable
   * start marker, the parsed start otherwise.
   */
  function ParseEventStart(e: RawEvent, parse: Parser): (t: Option<int>)
    ensures StartString(e) == "" ==> t == Some(0)
    ensures StartString(e) != "" ==> t == Time(parse, StartString(e))
  {
    var start := Nullish(e.startDateTime, e.startDate);
    if start.Some? && start.value != "" then parse(start.value) else Some(0)
  }

  /** `endTime`: the parsed end, or the start time when `end` is "". */
  function EndTime(e: RawEvent, parse: Parser): (t: Option<int>)
    ensures EndString(e) == "" ==> t == ParseEventStart(e, parse)
    ensures EndString(e) != "" ==> t == Time(parse, EndString(e))
  {
    var end := EndString(e);
    if end != "" then parse(end) else ParseEventStart(e, parse)
  }

  /**
   * `nowTime >= startTime - 60000 && nowTime <= endTime + 60000`; every
   * comparison with NaN is false.
   */
  predicate InActiveWindow(e: RawEvent, now: int, parse: Parser)
    ensures InActiveWindow(e, now, parse) ==> ParseEventStart(e, parse).Some? && EndTime(e, parse).Some?
    ensures StartString(e) == "" && EndString(e) == "" ==>
      (InActiveWindow(e, now, parse) <==> -ActiveToleranceMs <= now <= ActiveToleranceMs)
  {
    var st, et := ParseEventStart(e, parse), EndTime(e, parse);
    st.Some? && et.Some? && now >= st.value - ActiveToleranceMs && now <= et.value + ActiveToleranceMs
  }

  /** The callback of `.map((e, index) => ...)` at lib/google-calendar.ts:145-163. */
  function Normalize(e: RawEvent, index: nat, now: int, parse: Parser): (ev: CalendarEvent)
    requires e.id.Some?
    ensures ev.id == e.id.value && ev.location == e.location
    ensures ev.summary == (if e.summary.Some? then e.summary.value else NoTitle)
    ensures ev.start == (if e.startDateTime.Some? then e.startDateTime.value
                         else if e.startDate.Some? then e.startDate.value else "")
    ensures ev.end == (if e.endDateTime.Some? then e.endDateTime.value
                       else if e.endDate.Some? then e.endDate.value else "")
    ensures ev.isAllDay <==> Truthy(e.startDate) && !Truthy(e.startDateTime)
    ensures ev.priority == index + 1
    ensures ev.isNext <==> InActiveWindow(e, now, parse)
  {
    CalendarEvent(
      id := e.id.value,
      summary := if e.summary.Some? then e.summary.value else NoTitle,
      start := StartString(e),
      end := EndString(e),
      isAllDay := Truthy(e.startDate) && !Truthy(e.startDateTime),
      location := e.location,
      priority := index + 1,
      isNext := InActiveWindow(e, now, parse))
  }

  /** The mapped list: one record per kept item, in the same order, numbered from 1. */
  function NormalizeAll(kept: seq<RawEvent>, now: int, parse: Parser): (events: seq<CalendarEvent>)
    requires forall i :: 0 <= i < |kept| ==> kept[i].id.Some?
    ensures |events| == |kept|
    ensures forall i :: 0 <= i < |kept| ==> events[i] == Normalize(kept[i], i, now, parse)
  {
    seq(|kept|, i requires 0 <= i < |kept| => Normalize(kept[i], i, now, parse))
  }

  // ---------------------------------------------------------------------
  // "next up" fallback
  // ---------------------------------------------------------------------

  /** `events.some((e) => e.isNext)`. */
  predicate HasActive(events: seq<CalendarEvent>)
    ensures HasActive(events) <==> exists ev :: ev in events && ev.isNext
    ensures HasActive(events) ==> events != []
  {
    exists i :: 0 <= i < |events| && events[i].isNext
  }

  /** `new Date(e.start).getTime() > nowTime`; false for an empty or unparsable start. */
  predicate Upcoming(ev: CalendarEvent, now: int, parse: Parser)
    ensures Upcoming(ev, now, parse) ==> ev.start != "" && parse(ev.start).Some? && parse(ev.start).value > now
  {
    var t := Time(parse, ev.start);
    t.Some? && t.value > now
  }

  /** The index `events.find(...)` at lib/google-calendar.ts:167 lands on. */
  function FirstUpcoming(events: seq<CalendarEvent>, now: int, parse: Parser): (k: Option<nat>)
    ensures k.Some? ==> k.value < |events| && Upcoming(events[k.value], now, parse)
    ensures k.Some? ==> forall j :: 0 <= j < k.value ==> !Upcoming(events[j], now, parse)
    ensures k.None? ==> forall j :: 0 <= j < |events| ==> !Upcoming(events[j], now, parse)
  {
    if events == [] then None
    else if Upcoming(events[0], now, parse) then Some(0)
    else match FirstUpcoming(events[1..], now, parse)
      case Some(j) => Some(j + 1)
      case None => None
  }

  /** Is `events[i]` the first one that starts strictly after `now`? */
  predicate IsFirstUpcoming(events: seq<CalendarEvent>, i: int, now: int, parse: Parser)
    requires 0 <= i < |events|
  {
    Upcoming(events[i], now, parse) && forall j :: 0 <= j < i ==> !Upcoming(events[j], now, parse)
  }

  /**
   * The list after lib/google-calendar.ts:165-169: when no record is active,
   * the first upcoming one is flagged; only that one flag changes.
   */
  function ApplyFallback(events: seq<CalendarEvent>, now: int, parse: Parser): (r: seq<CalendarEvent>)
    ensures |r| == |events|
    ensures forall i :: 0 <= i < |r| ==> r[i] == events[i].(isNext := r[i].isNext)
    ensures HasActive(events) ==> r == events
    ensures !HasActive(events) ==>
      forall i :: 0 <= i < |r| ==> (r[i].isNext <==> IsFirstUpcoming(events, i, now, parse))
  {
    if !HasActive(events) && |events| > 0 then
      match FirstUpcoming(events, now, parse)
      case Some(k) => events[k := events[k].(isNext := true)]
      case None => events
    else events
  }

  /** When nothing is active, at most one record ends up flagged. */
  lemma {:induction false} FallbackFlagsAtMostOne(events: seq<CalendarEvent>, now: int, parse: Parser, i: nat, j: nat)
    requires !HasActive(events)
    requires i < |events| && j < |events|
    requires ApplyFallback(events, now, parse)[i].isNext && ApplyFallback(events, now, parse)[j].isNext
    ensures i == j
  {
    var r := ApplyFallback(events, now, parse);
    assert IsFirstUpcoming(events, i, now, parse) && IsFirstUpcoming(events, j, now, parse);
  }

  /**
   * When nothing is active and some record starts after `now`, exactly one
   * record is flagged afterwards.
   */
  lemma {:induction false} FallbackFlagsExactlyOne(events: seq<CalendarEvent>, now: int, parse: Parser, u: nat)
    requires !HasActive(events)
    requires u < |events| && Upcoming(events[u], now, parse)
    ensures var r := ApplyFallback(events, now, parse);
      exists k :: 0 <= k < |r| && r[k].isNext && forall j :: 0 <= j < |r| && r[j].isNext ==> j == k
  {
    var r := ApplyFallback(events, now, parse);
    var k := FirstUpcoming(events, now, parse);
    assert k.Some?;
    assert r[k.value].isNext;
    forall j | 0 <= j < |r| && r[j].isNext
      ensures j == k.value
    {
      FallbackFlagsAtMostOne(events, now, parse, j, k.value);
    }
  }

  // ---------------------------------------------------------------------
  // summary and the whole transformation
  // ---------------------------------------------------------------------

  /** The text after the count in a non-empty day's summary line. */
  function CountTail(day: string): string {
    " event(s) for " + day
  }

  /**
   * The summary line at lib/google-calendar.ts:172-175: "No events" for an
   * empty day; otherwise the numeral of the count, which reads back as the
   * count, followed by " event(s) for " and the day.
   */
  function SummaryLine(count: nat, day: string): (s: string)
    ensures |s| > |day| && s[|s| - |day|..] == day
    ensures s[0] == 'N' <==> count == 0
    ensures count == 0 ==> s == "No events for " + day
    ensures count > 0 ==>
      && |s| > |CountTail(day)|
      && s[|s| - |CountTail(day)|..] == CountTail(day)
      && ParseNat(s[..|s| - |CountTail(day)|]) == Some(count)
  {
    if count == 0 then "No events for " + day
    else
      var n := NatToDecimal(count);
      NatRoundTrip(count);
      assert (n + CountTail(day))[..|n|] == n;
      n + CountTail(day)
  }

  /** The summary line tells the count back: different counts give different lines. */
  lemma {:induction false} SummaryLineDeterminesCount(a: nat, b: nat, day: string)
    requires SummaryLine(a, day) == SummaryLine(b, day)
    ensures a == b
  {
    var s := SummaryLine(a, day);
    if a != 0 && b != 0 {
      assert ParseNat(s[..|s| - |CountTail(day)|]) == Some(a);
    }
  }

  /** Everything after the fetch in `fetchTodayEvents` (lib/google-calendar.ts:137-181). */
  function TodayEvents(items: seq<RawEvent>, includeAllDay: bool, now: int, day: string, parse: Parser)
    : (r: TodayEventsResult)
    ensures |r.events| == |FilterItems(items, includeAllDay)|
    ensures r.prioritized == r.events
    ensures (r.summary == "No events for " + day) <==> r.events == []
    ensures r.summary == SummaryLine(|r.events|, day)
  {
    var kept := FilterItems(items, includeAllDay);
    var events := ApplyFallback(NormalizeAll(kept, now, parse), now, parse);
    TodayEventsResult(events, events, SummaryLine(|events|, day))
  }

  /**
   * Each record comes from the kept item at the same position, with its
   * position + 1 as priority and the provider's non-empty title (the
   * placeholder never shows); the flag is the active window, or, when no
   * window holds `now`, the first record starting after `now`.
   */
  lemma {:induction false} TodayEventsRecords(items: seq<RawEvent>, includeAllDay: bool, now: int, day: string, parse: Parser, i: nat)
    requires i < |FilterItems(items, includeAllDay)|
    ensures var kept, r := FilterItems(items, includeAllDay), TodayEvents(items, includeAllDay, now, day, parse);
      var ev := r.events[i];
      && kept[i] in items
      && ev.id == kept[i].id.value && ev.id != ""
      && ev.summary == kept[i].summary.value && ev.summary != ""
      && ev.priority == i + 1
      && ev.start == StartString(kept[i]) && ev.end == EndString(kept[i])
      && ev.location == kept[i].location
      && (ev.isAllDay <==> Truthy(kept[i].startDate) && !Truthy(kept[i].startDateTime))
      && (ev.isNext <==>
            InActiveWindow(kept[i], now, parse)
            || ((forall j :: 0 <= j < |kept| ==> !InActiveWindow(kept[j], now, parse))
                && IsFirstUpcoming(NormalizeAll(kept, now, parse), i, now, parse)))
  {
    var kept := FilterItems(items, includeAllDay);
    var mapped := NormalizeAll(kept, now, parse);
    FilterMembership(items, includeAllDay, kept[i]);
    if HasActive(mapped) {
      var k :| 0 <= k < |mapped| && mapped[k].isNext;
      assert InActiveWindow(kept[k], now, parse);
    } else {
      forall j | 0 <= j < |kept|
        ensures !InActiveWindow(kept[j], now, parse)
      {
        assert !mapped[j].isNext;
      }
    }
  }

  function PrioritySet(events: seq<CalendarEvent>): set<nat> {
    set ev | ev in events :: ev.priority
  }

  /** `priority` runs through exactly 1..N, strictly increasing along the list. */
  lemma {:induction false} PrioritiesAreDense(items: seq<RawEvent>, includeAllDay: bool, now: int, day: string, parse: Parser)
    ensures var r := TodayEvents(items, includeAllDay, now, day, parse);
      && (forall i, j :: 0 <= i < j < |r.events| ==> r.events[i].priority < r.events[j].priority)
      && (forall p :: p in PrioritySet(r.events) <==> 1 <= p <= |r.events|)
  {
    var r := TodayEvents(items, includeAllDay, now, day, parse);
    var kept := FilterItems(items, includeAllDay);
    var mapped := NormalizeAll(kept, now, parse);
    assert forall i :: 0 <= i < |r.events| ==> r.events[i].priority == mapped[i].priority == i + 1;
    var ps := PrioritySet(r.events);
    forall p | 1 <= p <= |r.events|
      ensures p in ps
    {
      assert r.events[p - 1] in r.events;
    }
  }

  /** An item without an id, or without a title, is dropped whatever `includeAllDay` says. */
  lemma {:induction false} UnshowableItemDropped(items: seq<RawEvent>, includeAllDay: bool, e: RawEvent)
    requires !Truthy(e.id) || !Truthy(e.summary)
    ensures e !in FilterItems(items, includeAllDay)
  {
    FilterMembership(items, includeAllDay, e);
  }

  /** With `includeAllDay` false, no all-day record (and no item without a timed start) gets through. */
  lemma {:induction false} AllDaySuppressed(items: seq<RawEvent>, now: int, day: string, parse: Parser)
    ensures forall ev :: ev in TodayEvents(items, false, now, day, parse).events ==> !ev.isAllDay
    ensures forall e :: e in FilterItems(items, false) ==> Truthy(e.startDateTime)
  {
    var kept := FilterItems(items, false);
    var r := TodayEvents(items, false, now, day, parse);
    forall ev | ev in r.events
      ensures !ev.isAllDay
    {
      var i :| 0 <= i < |r.events| && r.events[i] == ev;
      assert Keep(kept[i], false);
    }
  }

  /**
   * When every kept item has a parsable start and end, and ended more
   * than the grace period before `now`, no record is flagged.
   */
  lemma {:induction false} PastDayHasNoNext(items: seq<RawEvent>, includeAllDay: bool, now: int, day: string, parse: Parser)
    requires forall e :: e in items && Keep(e, includeAllDay) ==>
      && ParseEventStart(e, parse).Some? && EndTime(e, parse).Some?
      && ParseEventStart(e, parse).value <= EndTime(e, parse).value
      && EndTime(e, parse).value + ActiveToleranceMs < now
    ensures forall ev :: ev in TodayEvents(items, includeAllDay, now, day, parse).events ==> !ev.isNext
  {
    var kept := FilterItems(items, includeAllDay);
    var mapped := NormalizeAll(kept, now, parse);
    var r := TodayEvents(items, includeAllDay, now, day, parse);
    forall i | 0 <= i < |kept|
      ensures !mapped[i].isNext && !Upcoming(mapped[i], now, parse)
    {
      FilterMembership(items, includeAllDay, kept[i]);
    }
    forall ev | ev in r.events
      ensures !ev.isNext
    {
      var i :| 0 <= i < |r.events| && r.events[i] == ev;
      assert !IsFirstUpcoming(mapped, i, now, parse);
    }
  }

  // ---------------------------------------------------------------------
  // the same steps, run in place as the source does
  // ---------------------------------------------------------------------

  /** `events.find(...)`: the first record starting after `now`, scanning left to right. */
  method FindFirstUpcoming(a: array<CalendarEvent>, now: int, parse: Parser) returns (k: Option<nat>)
    ensures k.Some? ==> k.value < a.Length && IsFirstUpcoming(a[..], k.value, now, parse)
    ensures k.None? ==> forall j :: 0 <= j < a.Length ==> !Upcoming(a[j], now, parse)
  {
    var i := 0;
    while i < a.Length
      invariant 0 <= i <= a.Length
      invariant forall j :: 0 <= j < i ==> !Upcoming(a[j], now, parse)
    {
      if Upcoming(a[i], now, parse) {
        return Some(i);
      }
      i := i + 1;
    }
    return None;
  }

  /** lib/google-calendar.ts:165-169 on the events array: sets `isNext` on the found record in place. */
  method MarkFirstUpcoming(a: array<CalendarEvent>, now: int, parse: Parser)
    modifies a
    ensures a[..] == ApplyFallback(old(a[..]), now, parse)
  {
    if !HasActive(a[..]) && a.Length > 0 {
      var k := FindFirstUpcoming(a, now, parse);
      if k.Some? {
        a[k.value] := a[k.value].(isNext := true);
      }
    }
  }

  /** `fetchTodayEvents` from the moment the provider's items are in hand. */
  method FetchTodayEvents(items: seq<RawEvent>, includeAllDay: bool, now: int, day: string, parse: Parser)
    returns (r: TodayEventsResult)
    ensures r == TodayEvents(items, includeAllDay, now, day, parse)
  {
    var kept := FilterItems(items, includeAllDay);
    var mapped := NormalizeAll(kept, now, parse);
    var events := new CalendarEvent[|mapped|](i requires 0 <= i < |mapped| => mapped[i]);
    assert events[..] == mapped;
    MarkFirstUpcoming(events, now, parse);
    r := TodayEventsResult(events[..], events[..], SummaryLine(events.Length, day));
  }
}
