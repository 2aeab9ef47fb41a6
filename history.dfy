/**
  The "Challenge Winners History" view: every challenge up to the current
  week (or all of them when future weeks are shown), joined to team names,
  ordered by week with the "High Score" challenge first within each week.
 */
module History {
  import opened Wrappers
  import opened Text
  import opened Ordering
  import opened Records
  import opened Joins
  import Coerce

  /**
    The week window shared by the history and payout views: without a week
    column, or with future weeks shown, every row; otherwise rows whose week
    is present and at most `maxWeek`.
   */
  predicate Visible(hasWeek: bool, showFuture: bool, maxWeek: int, c: Challenge) {
    !hasWeek || showFuture || (c.week.Some? && c.week.value <= maxWeek)
  }

  /** The two masks `week.notna()` and `week <= MAX_WEEK`, applied only when the week column exists and future weeks are hidden. */
  function WindowRows(chal: Challenges, showFuture: bool, maxWeek: int): (r: seq<Challenge>)
    ensures |r| <= |chal.rows|
    ensures forall c :: c in r <==> c in chal.rows && Visible(chal.hasWeek, showFuture, maxWeek, c)
  {
    if chal.hasWeek && !showFuture then
      Filter(Filter(chal.rows, (c: Challenge) => c.week.Some?), (c: Challenge) => c.week.Some? && c.week.value <= maxWeek)
    else chal.rows
  }

  /** The priority column: the challenge whose name, as text, trimmed and lower-cased, is "high score". */
  predicate IsHighScore(name: Option<string>) {
    Squash(Coerce.AsText(name)) == "high score"
  }

  /** Surrounding whitespace and letter case in a challenge name never change its priority. */
  lemma HighScoreIgnoresCaseAndSpace(s: string)
    ensures IsHighScore(Some(s)) == IsHighScore(Some(Squash(s)))
  {
    SquashIdempotent(s);
  }

  /** A challenge without a name is never the "High Score" challenge. */
  lemma BlankIsNotHighScore()
    ensures !IsHighScore(None)
  {
    var t := Coerce.AsText(None);
    assert t == "nan";
    assert Trimmed(t) && forall k :: 0 <= k < |t| ==> !IsUpper(t[k]);
    SquashOfSquashed(t);
  }

  /** `sort_values(["Week", "__prio", "Challenge"])`. */
  function HistoryKey(e: Entry): (k: seq<Atom>) {
    [NumOr(e.ch.week), Num(if IsHighScore(e.ch.name) then 0 else 1), StrOr(e.ch.name)]
  }

  /** A week / priority / name key compares by week, then priority flag, then name. */
  lemma PrioKeyOrder(w1: Option<int>, h1: bool, n1: Option<string>, w2: Option<int>, h2: bool, n2: Option<string>)
    ensures KeyLe([NumOr(w1), Num(if h1 then 0 else 1), StrOr(n1)], [NumOr(w2), Num(if h2 then 0 else 1), StrOr(n2)]) <==>
      (w1 != w2 && AtomLe(NumOr(w1), NumOr(w2))) ||
      (w1 == w2 && h1 && !h2) ||
      (w1 == w2 && h1 == h2 && (n1 == n2 || AtomLe(StrOr(n1), StrOr(n2))))
  {
    var p1, p2 := Num(if h1 then 0 else 1), Num(if h2 then 0 else 1);
    KeyLe3(NumOr(w1), p1, StrOr(n1), NumOr(w2), p2, StrOr(n2));
    KeyLe2(p1, StrOr(n1), p2, StrOr(n2));
  }

  /**
    The history key orders by week (blank weeks last), then puts "High Score"
    before the other challenges of a week, then orders by challenge name.
   */
  lemma HistoryKeyOrder(a: Entry, b: Entry)
    ensures KeyLe(HistoryKey(a), HistoryKey(b)) <==>
      (a.ch.week != b.ch.week && AtomLe(NumOr(a.ch.week), NumOr(b.ch.week))) ||
      (a.ch.week == b.ch.week && IsHighScore(a.ch.name) && !IsHighScore(b.ch.name)) ||
      (a.ch.week == b.ch.week && IsHighScore(a.ch.name) == IsHighScore(b.ch.name) &&
        (a.ch.name == b.ch.name || AtomLe(StrOr(a.ch.name), StrOr(b.ch.name))))
  {
    var h1, h2 := IsHighScore(a.ch.name), IsHighScore(b.ch.name);
    PrioKeyOrder(a.ch.week, h1, a.ch.name, b.ch.week, h2, b.ch.name);
  }

  /** The history view. */
  function HistoryView(chal: Challenges, teams: Teams, showFuture: bool, maxWeek: int): (r: seq<Entry>)
    ensures |r| >= |WindowRows(chal, showFuture, maxWeek)|
    ensures forall e :: e in r ==> e.ch in chal.rows && Visible(chal.hasWeek, showFuture, maxWeek, e.ch)
  {
    var joined := Join(WindowRows(chal, showFuture, maxWeek), MergeTable(teams));
    SortByMembers(joined, HistoryKey);
    JoinRowsIn(WindowRows(chal, showFuture, maxWeek), MergeTable(teams));
    SortBy(joined, HistoryKey)
  }

  /** Every challenge inside the window is listed. */
  lemma HistoryCovers(chal: Challenges, teams: Teams, showFuture: bool, maxWeek: int, c: Challenge)
    requires c in chal.rows && Visible(chal.hasWeek, showFuture, maxWeek, c)
    ensures exists e :: e in HistoryView(chal, teams, showFuture, maxWeek) && e.ch == c
  {
    var joined := Join(WindowRows(chal, showFuture, maxWeek), MergeTable(teams));
    JoinCovers(WindowRows(chal, showFuture, maxWeek), MergeTable(teams), c);
    SortByMembers(joined, HistoryKey);
  }

  /** With unique team identifiers the view is a reordering of the window's rows, each named by `NameOf`. */
  lemma HistoryOneRowEach(chal: Challenges, teams: Teams, showFuture: bool, maxWeek: int)
    requires UniqueIds(teams.rows)
    ensures multiset(HistoryView(chal, teams, showFuture, maxWeek)) == multiset(Named(WindowRows(chal, showFuture, maxWeek), MergeTable(teams)))
  {
    JoinUnique(WindowRows(chal, showFuture, maxWeek), MergeTable(teams));
  }

  /** Without a `team_name` column the view lists each challenge of the window once, with no name. */
  lemma HistoryWithoutNames(chal: Challenges, teams: Teams, showFuture: bool, maxWeek: int)
    requires !teams.hasName
    ensures |HistoryView(chal, teams, showFuture, maxWeek)| == |WindowRows(chal, showFuture, maxWeek)|
    ensures forall e :: e in HistoryView(chal, teams, showFuture, maxWeek) ==> e.winnerName.None?
  {
    var rows := WindowRows(chal, showFuture, maxWeek);
    var joined := Join(rows, MergeTable(teams));
    JoinWithoutNames(rows, teams);
    SortByMembers(joined, HistoryKey);
    forall e | e in joined ensures e.winnerName.None? {
      var k :| 0 <= k < |joined| && joined[k] == e;
    }
  }

  /**
    The order: weeks ascending with blank weeks last; within a week the
    "High Score" challenge before the others; then challenge names ascending.
   */
  lemma HistoryOrder(chal: Challenges, teams: Teams, showFuture: bool, maxWeek: int, i: int, j: int)
    requires 0 <= i < j < |HistoryView(chal, teams, showFuture, maxWeek)|
    ensures var r := HistoryView(chal, teams, showFuture, maxWeek);
      (r[i].ch.week.None? ==> r[j].ch.week.None?) &&
      (r[i].ch.week.Some? && r[j].ch.week.Some? ==> r[i].ch.week.value <= r[j].ch.week.value)
    ensures var r := HistoryView(chal, teams, showFuture, maxWeek);
      r[i].ch.week == r[j].ch.week && IsHighScore(r[j].ch.name) ==> IsHighScore(r[i].ch.name)
    ensures var r := HistoryView(chal, teams, showFuture, maxWeek);
      r[i].ch.week == r[j].ch.week && IsHighScore(r[i].ch.name) == IsHighScore(r[j].ch.name) ==>
        r[i].ch.name == r[j].ch.name || AtomLe(StrOr(r[i].ch.name), StrOr(r[j].ch.name))
  {
    var joined := Join(WindowRows(chal, showFuture, maxWeek), MergeTable(teams));
    SortBySorted(joined, HistoryKey);
    HistoryPair(HistoryView(chal, teams, showFuture, maxWeek), i, j);
  }

  /** Two rows of a sequence sorted by the history key, read off at two indices. */
  lemma HistoryPair(r: seq<Entry>, i: int, j: int)
    requires SortedBy(r, HistoryKey) && 0 <= i < j < |r|
    ensures (r[i].ch.week.None? ==> r[j].ch.week.None?) &&
      (r[i].ch.week.Some? && r[j].ch.week.Some? ==> r[i].ch.week.value <= r[j].ch.week.value)
    ensures r[i].ch.week == r[j].ch.week && IsHighScore(r[j].ch.name) ==> IsHighScore(r[i].ch.name)
    ensures r[i].ch.week == r[j].ch.week && IsHighScore(r[i].ch.name) == IsHighScore(r[j].ch.name) ==>
      r[i].ch.name == r[j].ch.name || AtomLe(StrOr(r[i].ch.name), StrOr(r[j].ch.name))
  {
    SortedAt(r, HistoryKey, i, j);
    HistoryKeyOrder(r[i], r[j]);
  }
}
