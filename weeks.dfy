/**
  The week resolver: `current_week_from_calendar` with "today" as a
  parameter, the fallback to the challenge table when the calendar gives
  nothing, and the `MAX_WEEK` cut-off derived from the result.
 */
module Weeks {
  import opened Wrappers
  import opened Records

  /** `start_date <= today <= end_date`; a missing date compares false. */
  predicate Covers(w: Window, today: int) {
    w.start.Some? && w.end.Some? && w.start.value <= today <= w.end.value
  }

  /** A row of the `past` frame: started by today and carrying a week. */
  predicate Past(w: Window, today: int) {
    w.start.Some? && w.start.value <= today && w.week.Some?
  }

  /** Row `i` is the first window that contains today. */
  ghost predicate FirstCover(rows: seq<Window>, today: int, i: int) {
    0 <= i < |rows| && Covers(rows[i], today) && forall j :: 0 <= j < i ==> !Covers(rows[j], today)
  }

  /** `hit.iloc[0]`: the first window containing today. */
  function FirstCovering(rows: seq<Window>, today: int): (r: Option<nat>)
    ensures r.None? <==> forall i :: 0 <= i < |rows| ==> !Covers(rows[i], today)
    ensures r.Some? ==> FirstCover(rows, today, r.value)
  {
    if rows == [] then None
    else if Covers(rows[0], today) then Some(0)
    else
      match FirstCovering(rows[1..], today)
      case None => None
      case Some(k) => Some(k + 1)
  }

  /** `past.iloc[-1]` after sorting by start date: a past row whose start is the latest. */
  function LatestStarted(rows: seq<Window>, today: int): (r: Option<nat>)
    ensures r.None? <==> forall i :: 0 <= i < |rows| ==> !Past(rows[i], today)
    ensures r.Some? ==> r.value < |rows| && Past(rows[r.value], today)
    ensures r.Some? ==> forall i :: 0 <= i < |rows| && Past(rows[i], today) ==> rows[i].start.value <= rows[r.value].start.value
  {
    if rows == [] then None
    else
      var n := |rows| - 1;
      var rest := LatestStarted(rows[..n], today);
      assert forall i :: 0 <= i < n ==> rows[..n][i] == rows[i];
      if !Past(rows[n], today) then rest
      else if rest.None? || rows[rest.value].start.value <= rows[n].start.value then Some(n)
      else rest
  }

  /** `weeks["week"].dropna().min()`. */
  function MinWeek(rows: seq<Window>): (r: Option<int>)
    ensures r.None? <==> forall i :: 0 <= i < |rows| ==> rows[i].week.None?
    ensures r.Some? ==> exists i :: 0 <= i < |rows| && rows[i].week == r
    ensures r.Some? ==> forall i :: 0 <= i < |rows| && rows[i].week.Some? ==> r.value <= rows[i].week.value
  {
    if rows == [] then None
    else
      var rest := MinWeek(rows[1..]);
      assert forall i :: 1 <= i < |rows| ==> rows[1..][i - 1] == rows[i];
      if rows[0].week.None? then rest
      else if rest.None? || rows[0].week.value <= rest.value then rows[0].week
      else rest
  }

  /**
    `current_week_from_calendar`. Unknown when the calendar is empty or lacks
    a needed column. Otherwise, in priority order: the week of the first
    window containing today, when that row has a week; else the week of a
    window started by today with the latest start; else the smallest week.
   */
  function CurrentWeekFromCalendar(cal: Calendar, today: int): (r: Option<int>)
    ensures r.None? <==> |cal.rows| == 0 || !cal.complete || forall i :: 0 <= i < |cal.rows| ==> cal.rows[i].week.None?
    ensures cal.complete ==> forall i :: FirstCover(cal.rows, today, i) && cal.rows[i].week.Some? ==> r == cal.rows[i].week
    ensures cal.complete && (forall i :: FirstCover(cal.rows, today, i) ==> cal.rows[i].week.None?) &&
            (exists k :: 0 <= k < |cal.rows| && Past(cal.rows[k], today)) ==>
      exists k :: 0 <= k < |cal.rows| && Past(cal.rows[k], today) && r == cal.rows[k].week &&
        forall i :: 0 <= i < |cal.rows| && Past(cal.rows[i], today) ==> cal.rows[i].start.value <= cal.rows[k].start.value
    ensures (forall k :: 0 <= k < |cal.rows| ==> !Past(cal.rows[k], today)) && r.Some? ==>
      (exists i :: 0 <= i < |cal.rows| && cal.rows[i].week == r) &&
      forall i :: 0 <= i < |cal.rows| && cal.rows[i].week.Some? ==> r.value <= cal.rows[i].week.value
  {
    if |cal.rows| == 0 || !cal.complete then None
    else
      var hit := FirstCovering(cal.rows, today);
      if hit.Some? && cal.rows[hit.value].week.Some? then cal.rows[hit.value].week
      else
        var past := LatestStarted(cal.rows, today);
        if past.Some? then cal.rows[past.value].week
        else MinWeek(cal.rows)
  }

  /** `chal["week"].dropna().max()`, missing when no row has a week. */
  function MaxWeek(rows: seq<Challenge>): (r: Option<int>)
    ensures r.None? <==> forall i :: 0 <= i < |rows| ==> rows[i].week.None?
    ensures r.Some? ==> exists i :: 0 <= i < |rows| && rows[i].week == r
    ensures r.Some? ==> forall i :: 0 <= i < |rows| && rows[i].week.Some? ==> rows[i].week.value <= r.value
  {
    if rows == [] then None
    else
      var rest := MaxWeek(rows[1..]);
      assert forall i :: 1 <= i < |rows| ==> rows[1..][i - 1] == rows[i];
      if rows[0].week.None? then rest
      else if rest.None? || rest.value <= rows[0].week.value then rows[0].week
      else rest
  }

  /**
    The fallback as written: `int(chal["week"].dropna().max())` when the
    table has a week column and rows, else 1. `None` stands for the
    exception `int(<NA>)` raises when every week is blank.
   */
  function FallbackWeekAsWritten(chal: Challenges): (r: Option<int>)
    ensures r.None? <==> chal.hasWeek && |chal.rows| > 0 && forall i :: 0 <= i < |chal.rows| ==> chal.rows[i].week.None?
  {
    if chal.hasWeek && |chal.rows| > 0 then MaxWeek(chal.rows) else Some(1)
  }

  /** An unusable calendar plus one challenge with a blank week stops the page instead of defaulting to week 1. */
  lemma FallbackRaisesOnBlankWeek(name: string)
    ensures FallbackWeekAsWritten(Challenges(true, false, [Challenge(None, Some(name), 0, None, false, None)])).None?
  {
  }

  /**
    The fallback as intended: the largest week any challenge carries, or 1
    when there is none. It agrees with the code wherever the code does not raise.
   */
  function FallbackWeek(chal: Challenges): (w: int)
    ensures chal.hasWeek && (exists i :: 0 <= i < |chal.rows| && chal.rows[i].week.Some?) ==>
      (exists i :: 0 <= i < |chal.rows| && chal.rows[i].week == Some(w)) &&
      forall i :: 0 <= i < |chal.rows| && chal.rows[i].week.Some? ==> chal.rows[i].week.value <= w
    ensures !chal.hasWeek || (forall i :: 0 <= i < |chal.rows| ==> chal.rows[i].week.None?) ==> w == 1
    ensures FallbackWeekAsWritten(chal).Some? ==> w == FallbackWeekAsWritten(chal).value
  {
    if chal.hasWeek then MaxWeek(chal.rows).GetOr(1) else 1
  }

  /** `wk_current`: the calendar's answer, else the fallback; never unknown. */
  function ResolveWeek(cal: Calendar, chal: Challenges, today: int): (w: int)
    ensures w == 1 || (exists i :: 0 <= i < |cal.rows| && cal.rows[i].week == Some(w))
                   || (exists i :: 0 <= i < |chal.rows| && chal.rows[i].week == Some(w))
    ensures CurrentWeekFromCalendar(cal, today).None? ==> w == FallbackWeek(chal)
    ensures CurrentWeekFromCalendar(cal, today).Some? ==> w == CurrentWeekFromCalendar(cal, today).value
  {
    match CurrentWeekFromCalendar(cal, today)
    case Some(w) => w
    case None => FallbackWeek(chal)
  }

  /** `MAX_WEEK = int(wk_current or 1)`: a week 0 counts as week 1. */
  function MaxWeekOf(current: int): (m: int)
    ensures m != 0
    ensures current != 0 ==> m == current
    ensures current == 0 ==> m == 1
  {
    if current == 0 then 1 else current
  }

  /** The calendar used by the examples below: week 1 on days 0..5, week 2 on days 6..10. */
  function TwoWeeks(): (c: Calendar)
    ensures c.complete && |c.rows| == 2
  {
    Calendar(true, [Window(Some(1), Some(0), Some(5)), Window(Some(2), Some(6), Some(10))])
  }

  /** Day 7 falls inside week 2's window. */
  lemma ResolverInsideWindow()
    ensures CurrentWeekFromCalendar(TwoWeeks(), 7) == Some(2)
  {
    var rows := TwoWeeks().rows;
    assert !Covers(rows[0], 7) && Covers(rows[1], 7);
    assert FirstCover(rows, 7, 1);
  }

  /** Day 20 is after every window: the latest started week, 2, is current. */
  lemma ResolverAfterSeason()
    ensures CurrentWeekFromCalendar(TwoWeeks(), 20) == Some(2)
  {
    var rows := TwoWeeks().rows;
    assert !Covers(rows[0], 20) && !Covers(rows[1], 20);
    assert Past(rows[0], 20) && Past(rows[1], 20);
  }

  /** Day -1 is before every window: the smallest week, 1, is current. */
  lemma ResolverBeforeSeason()
    ensures CurrentWeekFromCalendar(TwoWeeks(), -1) == Some(1)
  {
    var rows := TwoWeeks().rows;
    assert !Covers(rows[0], -1) && !Covers(rows[1], -1);
    assert !Past(rows[0], -1) && !Past(rows[1], -1);
  }
}
