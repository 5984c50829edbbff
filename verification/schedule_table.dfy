/**
 * The two text decisions of the schedule widget's table
 * (gcalmcp/resources/today-schedule/components/ScheduleTable.tsx):
 * `formatDuration`, from a whole number of minutes, and the "Duration"
 * cell, which shows a dash for all-day records.
 */
module ScheduleTable {

  import opened Wrappers
  import opened Decimal
  import opened GoogleCalendar

  /** The dash shown in the duration cell of an all-day record. */
  const EmDash: string := "\U{2014}"

  /** What follows the `h`: nothing for whole hours, `" <m>m"` otherwise. */
  function MinutesTail(m: nat): string {
    if m != 0 then " " + NatToDecimal(m) + "m" else ""
  }

  /**
   * The text for a span of at least an hour, `"<h>h"` or `"<h>h <m>m"`:
   * the digits before its first `h` read as `h`, and what follows the `h`
   * is empty for whole hours and reads as `m` either way.
   */
  function HoursText(h: nat, m: nat): (s: string)
    ensures |s| >= 2 && Find(s, 'h') < |s|
    ensures ParseNat(s[..Find(s, 'h')]) == Some(h)
    ensures ParseMinutesTail(s[Find(s, 'h') + 1..]) == Some(m)
    ensures s[Find(s, 'h') + 1..] == [] <==> m == 0
    ensures s[|s| - 1] == 'h' <==> m == 0
    ensures s[|s| - 1] == 'm' <==> m != 0
  {
    var hs, tail := NatToDecimal(h), MinutesTail(m);
    HoursPrefix(hs, tail);
    NatRoundTrip(h);
    MinutesTailReads(m);
    hs + "h" + tail
  }

  /**
   * `formatDuration` once the minutes are known. Below an hour (zero and
   * negative spans too) the text is the numeral of `mins` and an `m`.
   * From an hour up, the digits before the `h` read as `floor(mins / 60)`,
   * at least 1, and what follows the `h` is empty for whole hours and
   * otherwise reads as `mins % 60`, below 60.
   */
  function FormatDuration(mins: int): (s: string)
    ensures |s| >= 2
    ensures 'h' in s <==> mins >= 60
    ensures s[|s| - 1] == 'h' <==> mins >= 60 && mins % 60 == 0
    ensures s[|s| - 1] == 'm' <==> !(mins >= 60 && mins % 60 == 0)
    ensures mins < 60 ==> ParseInt(s[..|s| - 1]) == Some(mins)
    ensures mins >= 60 ==>
      && Find(s, 'h') < |s|
      && ParseNat(s[..Find(s, 'h')]) == Some(mins / 60) && mins / 60 >= 1
      && ParseMinutesTail(s[Find(s, 'h') + 1..]) == Some(mins % 60) && mins % 60 < 60
      && (s[Find(s, 'h') + 1..] == [] <==> mins % 60 == 0)
  {
    if mins < 60 then
      var num := IntToDecimal(mins);
      assert forall k :: 0 <= k < |num| ==> num[k] != 'h' by {
        assert forall k :: 0 < k < |num| ==> IsDigit(num[k]);
      }
      IntRoundTrip(mins);
      assert (num + "m")[..|num|] == num;
      num + "m"
    else
      HoursText(mins / 60, mins % 60)
  }

  /** The first position of `c` in `s`, or `|s|` when there is none. */
  function Find(s: string, c: char): (k: nat)
    ensures k <= |s|
    ensures k < |s| ==> s[k] == c
    ensures forall j :: 0 <= j < k ==> s[j] != c
  {
    if s == [] || s[0] == c then 0 else 1 + Find(s[1..], c)
  }

  /** What may follow the hours: nothing, or a space, the minutes and `m`. */
  function ParseMinutesTail(rest: string): Option<nat> {
    if rest == [] then Some(0)
    else if |rest| >= 3 && rest[0] == ' ' && rest[|rest| - 1] == 'm' then ParseNat(rest[1..|rest| - 1])
    else None
  }

  /** The minutes of a text that holds no `h`: `"<int>m"`. */
  function ParseMinutesOnly(s: string): Option<int> {
    if s != [] && s[|s| - 1] == 'm' then ParseInt(s[..|s| - 1]) else None
  }

  /** The minutes of `"<h>h"` followed by `tail`. */
  function ParseHoursThen(hours: string, tail: string): Option<int> {
    match (ParseNat(hours), ParseMinutesTail(tail))
    case (Some(h), Some(m)) => Some(h * 60 + m)
    case _ => None
  }

  /**
   * Reads a duration text back into minutes: `"<int>m"`, `"<h>h"` or
   * `"<h>h <m>m"`.
   */
  function ParseDuration(s: string): Option<int> {
    var k := Find(s, 'h');
    if k == |s| then ParseMinutesOnly(s) else ParseHoursThen(s[..k], s[k + 1..])
  }

  lemma {:induction false} ShortDurationRoundTrip(mins: int)
    requires mins < 60
    ensures ParseDuration(FormatDuration(mins)) == Some(mins)
  {
    var s := FormatDuration(mins);
    assert Find(s, 'h') == |s|;
  }

  lemma {:induction false} HoursPrefix(hs: string, tail: string)
    requires AllDigits(hs)
    ensures Find(hs + "h" + tail, 'h') == |hs|
    ensures (hs + "h" + tail)[..|hs|] == hs && (hs + "h" + tail)[|hs| + 1..] == tail
  {
    var s := hs + "h" + tail;
    assert s[|hs|] == 'h';
    assert forall j :: 0 <= j < |hs| ==> s[j] == hs[j] && IsDigit(hs[j]);
  }

  lemma {:induction false} MinutesTailReads(m: nat)
    ensures ParseMinutesTail(MinutesTail(m)) == Some(m)
  {
    if m != 0 {
      var ms := NatToDecimal(m);
      var rest := " " + ms + "m";
      assert rest[1..|rest| - 1] == ms;
      NatRoundTrip(m);
    }
  }

  /** `Math.floor(mins / 60)` and `mins % 60` split `mins` into whole hours and the minutes left over. */
  lemma {:induction false} HoursMinutesSplit(mins: int)
    requires mins >= 60
    ensures var h, m := mins / 60, mins % 60;
      h >= 1 && 0 <= m < 60 && h * 60 + m == mins
  {
  }

  /**
   * A text whose part before its first `h` reads as `floor(mins / 60)` and
   * whose part after it reads as `mins % 60` reads back as `mins`.
   */
  lemma {:induction false} ReadLongDuration(s: string, mins: int)
    requires mins >= 60
    requires Find(s, 'h') < |s|
    requires ParseNat(s[..Find(s, 'h')]) == Some(mins / 60)
    requires ParseMinutesTail(s[Find(s, 'h') + 1..]) == Some(mins % 60)
    ensures ParseDuration(s) == Some(mins)
  {
    HoursMinutesSplit(mins);
  }

  lemma {:induction false} LongDurationRoundTrip(mins: int)
    requires mins >= 60
    ensures ParseDuration(FormatDuration(mins)) == Some(mins)
  {
    ReadLongDuration(FormatDuration(mins), mins);
  }

  /** The text loses nothing: the minutes can be read back from it. */
  lemma {:induction false} FormatDurationRoundTrip(mins: int)
    ensures ParseDuration(FormatDuration(mins)) == Some(mins)
  {
    if mins < 60 {
      ShortDurationRoundTrip(mins);
    } else {
      LongDurationRoundTrip(mins);
    }
  }

  /** Different minute counts never print the same text. */
  lemma {:induction false} FormatDurationInjective(a: int, b: int)
    requires FormatDuration(a) == FormatDuration(b)
    ensures a == b
  {
    FormatDurationRoundTrip(a);
    FormatDurationRoundTrip(b);
  }

  /**
   * The "Duration" cell: a dash for an all-day record, the formatted span
   * otherwise; the dash shows exactly for all-day records.
   */
  function DurationCell(ev: CalendarEvent, mins: int): (s: string)
    ensures s == EmDash <==> ev.isAllDay
    ensures !ev.isAllDay ==> s == FormatDuration(mins) && ParseDuration(s) == Some(mins)
  {
    if ev.isAllDay then EmDash
    else
      FormatDurationRoundTrip(mins);
      FormatDuration(mins)
  }
}
