/**
  The "Survivor (Guillotine)" view: the teams still alive by name, and the
  eliminated teams (up to the current week unless future weeks are shown)
  by elimination week and name.
 */
module Survivor {
  import opened Wrappers
  import opened Ordering
  import opened Records

  /** The two tables of the view. */
  datatype Board = Board(alive: seq<Team>, out: seq<Team>)

  predicate IsAlive(t: Team) {
    t.eliminated.None?
  }

  predicate IsOut(t: Team) {
    t.eliminated.Some?
  }

  function NameKey(t: Team): (k: seq<Atom>) {
    [StrOr(t.name)]
  }

  /** `sort_values(["eliminated_week", "team_name"])`. */
  function OutKey(t: Team): (k: seq<Atom>) {
    [NumOr(t.eliminated), StrOr(t.name)]
  }

  /** The mask `eliminated_week <= maxWeek` (a missing week compares false). */
  function OutBy(maxWeek: int): (p: Team -> bool) {
    (t: Team) => t.eliminated.Some? && t.eliminated.value <= maxWeek
  }

  /** The eliminated teams shown: all of them, or those eliminated by `maxWeek` when future weeks are hidden. */
  function OutRows(rows: seq<Team>, showFuture: bool, maxWeek: int): (r: seq<Team>)
    ensures forall t :: t in r <==> t in rows && IsOut(t) && (showFuture || t.eliminated.value <= maxWeek)
  {
    var out := Filter(rows, IsOut);
    if showFuture then out
    else Filter(out, OutBy(maxWeek))
  }

  /** The view; absent when Teams has no elimination column. */
  function SurvivorView(teams: Teams, showFuture: bool, maxWeek: int): (r: Option<Board>)
    ensures r.None? <==> !teams.hasEliminated
    ensures r.Some? ==> forall t :: t in r.value.alive <==> t in teams.rows && IsAlive(t)
    ensures r.Some? ==> forall t :: t in r.value.out <==> t in teams.rows && IsOut(t) && (showFuture || t.eliminated.value <= maxWeek)
  {
    if !teams.hasEliminated then None
    else
      var alive := Filter(teams.rows, IsAlive);
      var out := OutRows(teams.rows, showFuture, maxWeek);
      SortByMembers(alive, NameKey);
      SortByMembers(out, OutKey);
      Some(Board(SortBy(alive, NameKey), SortBy(out, OutKey)))
  }

  /** Each alive team is listed as often as it appears in Teams. */
  lemma AliveCounts(teams: Teams, showFuture: bool, maxWeek: int, t: Team)
    requires teams.hasEliminated
    ensures multiset(SurvivorView(teams, showFuture, maxWeek).value.alive)[t] ==
      if IsAlive(t) then multiset(teams.rows)[t] else 0
  {
    FilterCount(teams.rows, IsAlive, t);
  }

  /** Each eliminated team shown is listed as often as it appears in Teams. */
  lemma OutCounts(teams: Teams, showFuture: bool, maxWeek: int, t: Team)
    requires teams.hasEliminated
    ensures multiset(SurvivorView(teams, showFuture, maxWeek).value.out)[t] ==
      if IsOut(t) && (showFuture || t.eliminated.value <= maxWeek) then multiset(teams.rows)[t] else 0
  {
    FilterCount(teams.rows, IsOut, t);
    FilterCount(Filter(teams.rows, IsOut), OutBy(maxWeek), t);
  }

  /** Every team is either alive or eliminated: with future weeks shown the two lists account for all of Teams. */
  lemma {:induction false} AliveOutPartition(rows: seq<Team>)
    ensures |Filter(rows, IsAlive)| + |Filter(rows, IsOut)| == |rows|
  {
    if rows != [] {
      AliveOutPartition(rows[1..]);
    }
  }

  lemma SurvivorCountsAll(teams: Teams, maxWeek: int)
    requires teams.hasEliminated
    ensures |SurvivorView(teams, true, maxWeek).value.alive| + |SurvivorView(teams, true, maxWeek).value.out| == |teams.rows|
  {
    AliveOutPartition(teams.rows);
  }

  /** The alive list is in team-name order. */
  lemma AliveOrder(teams: Teams, showFuture: bool, maxWeek: int, i: int, j: int)
    requires teams.hasEliminated
    requires 0 <= i < j < |SurvivorView(teams, showFuture, maxWeek).value.alive|
    ensures var a := SurvivorView(teams, showFuture, maxWeek).value.alive;
      a[i].name == a[j].name || AtomLe(StrOr(a[i].name), StrOr(a[j].name))
  {
    var a := SurvivorView(teams, showFuture, maxWeek).value.alive;
    SortBySorted(Filter(teams.rows, IsAlive), NameKey);
    SortedAt(a, NameKey, i, j);
    KeyLe1(StrOr(a[i].name), StrOr(a[j].name));
  }

  /** Between eliminated teams the key puts the earlier elimination week first, then orders by team name. */
  lemma OutKeyOrder(a: Team, b: Team)
    requires a.eliminated.Some? && b.eliminated.Some?
    ensures KeyLe(OutKey(a), OutKey(b)) <==>
      a.eliminated.value < b.eliminated.value ||
      (a.eliminated == b.eliminated && (a.name == b.name || AtomLe(StrOr(a.name), StrOr(b.name))))
  {
    KeyLe2(NumOr(a.eliminated), StrOr(a.name), NumOr(b.eliminated), StrOr(b.name));
  }

  /** The eliminated list is by elimination week, then team name. */
  lemma OutOrder(teams: Teams, showFuture: bool, maxWeek: int, i: int, j: int)
    requires teams.hasEliminated
    requires 0 <= i < j < |SurvivorView(teams, showFuture, maxWeek).value.out|
    ensures var o := SurvivorView(teams, showFuture, maxWeek).value.out;
      o[i].eliminated.Some? && o[j].eliminated.Some? && o[i].eliminated.value <= o[j].eliminated.value
    ensures var o := SurvivorView(teams, showFuture, maxWeek).value.out;
      o[i].eliminated == o[j].eliminated ==> o[i].name == o[j].name || AtomLe(StrOr(o[i].name), StrOr(o[j].name))
  {
    var o := SurvivorView(teams, showFuture, maxWeek).value.out;
    SortBySorted(OutRows(teams.rows, showFuture, maxWeek), OutKey);
    SortedAt(o, OutKey, i, j);
    assert o[i] in o && o[j] in o;
    OutKeyOrder(o[i], o[j]);
  }
}
