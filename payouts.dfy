/**
  "Payouts by Team": per winning team, the prize money won and paid inside
  the week window, the fixed league fee and the two nets, joined to the
  team's name and owner and ordered by money won; and the season totals.
 */
module Payouts {
  import opened Wrappers
  import opened Ordering
  import opened Records
  import opened Joins
  import opened History

  /** `LEAGUE_FEE`: every team's buy-in. */
  const LeagueFee: int := 100

  /** `awarded`: the challenges with a winner, then the week window. */
  function Awarded(chal: Challenges, showFuture: bool, maxWeek: int): (r: seq<Challenge>)
    ensures forall c :: c in r <==> c in chal.rows && c.winner.Some? && Visible(chal.hasWeek, showFuture, maxWeek, c)
  {
    var won := Filter(chal.rows, (c: Challenge) => c.winner.Some?);
    WindowRows(Challenges(chal.hasWeek, chal.hasCid, won), showFuture, maxWeek)
  }

  /** Whether row `c` counts toward `id`'s total: won by `id`, and paid when only paid prizes count. */
  predicate Counts(c: Challenge, id: string, paidOnly: bool) {
    c.winner == Some(id) && (c.paid || !paidOnly)
  }

  /** `groupby("winner_team_id")["prize_amount"].sum()` for one team; `paidOnly` first selects the paid rows. */
  function WonBy(rows: seq<Challenge>, id: string, paidOnly: bool): (s: int)
    ensures (forall k :: 0 <= k < |rows| ==> rows[k].prize >= 0) ==> s >= 0
    ensures (forall k :: 0 <= k < |rows| ==> !Counts(rows[k], id, paidOnly)) ==> s == 0
  {
    if rows == [] then 0
    else
      var c := rows[|rows| - 1];
      WonBy(rows[..|rows| - 1], id, paidOnly) + (if Counts(c, id, paidOnly) then c.prize else 0)
  }

  /** `awarded["prize_amount"].sum()`, or over the paid rows only. */
  function Total(rows: seq<Challenge>, paidOnly: bool): (s: int)
    ensures (forall k :: 0 <= k < |rows| ==> rows[k].prize >= 0) ==> s >= 0
  {
    if rows == [] then 0
    else
      var c := rows[|rows| - 1];
      Total(rows[..|rows| - 1], paidOnly) + (if c.paid || !paidOnly then c.prize else 0)
  }

  /** A team is paid at most what it has won, when no prize is negative. */
  lemma {:induction false} PaidAtMostWon(rows: seq<Challenge>, id: string)
    requires forall k :: 0 <= k < |rows| ==> rows[k].prize >= 0
    ensures 0 <= WonBy(rows, id, true) <= WonBy(rows, id, false)
  {
    if rows != [] {
      PaidAtMostWon(rows[..|rows| - 1], id);
    }
  }

  /** The groups of `groupby`: the distinct winner identifiers, in order of first appearance. */
  function WinnerIds(rows: seq<Challenge>): (ids: seq<string>)
    ensures forall i, j :: 0 <= i < j < |ids| ==> ids[i] != ids[j]
  {
    if rows == [] then []
    else
      var rest := WinnerIds(rows[..|rows| - 1]);
      var c := rows[|rows| - 1];
      if c.winner.Some? && c.winner.value !in rest then rest + [c.winner.value] else rest
  }

  /** The groups are exactly the winners of the rows. */
  lemma {:induction false} WinnerIdsMembers(rows: seq<Challenge>, x: string)
    ensures x in WinnerIds(rows) <==> exists k :: 0 <= k < |rows| && rows[k].winner == Some(x)
  {
    if rows != [] {
      var init := rows[..|rows| - 1];
      WinnerIdsMembers(init, x);
      assert forall k :: 0 <= k < |init| ==> init[k] == rows[k];
    }
  }

  /** The total over a list of teams. */
  function SumOver(ids: seq<string>, rows: seq<Challenge>, paidOnly: bool): (t: int) {
    if ids == [] then 0
    else SumOver(ids[..|ids| - 1], rows, paidOnly) + WonBy(rows, ids[|ids| - 1], paidOnly)
  }

  /** A row appended to the table adds its prize to its own team's sum only. */
  lemma WonByStep(init: seq<Challenge>, c: Challenge, id: string, paidOnly: bool)
    ensures WonBy(init + [c], id, paidOnly) == WonBy(init, id, paidOnly) + (if Counts(c, id, paidOnly) then c.prize else 0)
  {
    assert (init + [c])[..|init|] == init;
  }

  /** Adding a row adds its prize to the sum over distinct teams exactly when its winner is among them. */
  lemma {:induction false} SumOverStep(ids: seq<string>, init: seq<Challenge>, c: Challenge, paidOnly: bool)
    requires forall i, j :: 0 <= i < j < |ids| ==> ids[i] != ids[j]
    requires c.winner.Some?
    ensures SumOver(ids, init + [c], paidOnly) ==
      SumOver(ids, init, paidOnly) + (if c.winner.value in ids && (c.paid || !paidOnly) then c.prize else 0)
  {
    if ids != [] {
      var front := ids[..|ids| - 1];
      SumOverStep(front, init, c, paidOnly);
      WonByStep(init, c, ids[|ids| - 1], paidOnly);
      assert c.winner.value in ids <==> c.winner.value in front || c.winner.value == ids[|ids| - 1] by {
        assert ids == front + [ids[|ids| - 1]];
      }
      assert ids[|ids| - 1] !in front;
    }
  }

  /**
    The per-team totals add up to the season totals: summing `Total_Won`
    (or `Total_Paid`) over the winning teams gives the prize money of all
    awarded (or all paid) rows.
   */
  lemma {:induction false} SeasonTotals(rows: seq<Challenge>, paidOnly: bool)
    requires forall k :: 0 <= k < |rows| ==> rows[k].winner.Some?
    ensures SumOver(WinnerIds(rows), rows, paidOnly) == Total(rows, paidOnly)
  {
    if rows != [] {
      var init := rows[..|rows| - 1];
      var c := rows[|rows| - 1];
      assert rows == init + [c];
      SeasonTotals(init, paidOnly);
      var ids0 := WinnerIds(init);
      SumOverStep(ids0, init, c, paidOnly);
      if c.winner.value !in ids0 {
        NewWinner(init, c, paidOnly);
      }
    }
  }

  /** A row whose winner is new to the table starts that team's group. */
  lemma NewWinner(init: seq<Challenge>, c: Challenge, paidOnly: bool)
    requires c.winner.Some? && c.winner.value !in WinnerIds(init)
    ensures WinnerIds(init + [c]) == WinnerIds(init) + [c.winner.value]
    ensures SumOver(WinnerIds(init + [c]), init + [c], paidOnly) ==
      SumOver(WinnerIds(init), init + [c], paidOnly) + WonBy(init + [c], c.winner.value, paidOnly)
    ensures WonBy(init, c.winner.value, paidOnly) == 0
  {
    var rows := init + [c];
    var w := c.winner.value;
    assert rows[..|rows| - 1] == init;
    var ids := WinnerIds(init) + [w];
    assert ids[..|ids| - 1] == WinnerIds(init);
    WinnerIdsMembers(init, w);
    assert forall k :: 0 <= k < |init| ==> !Counts(init[k], w, paidOnly);
  }

  /** A row of the payouts table. */
  datatype Payout = Payout(
    id: string,
    name: Option<string>,
    owner: Option<string>,
    won: int,
    paid: int,
    fee: int,
    netAwarded: int,
    netPaid: int)

  /** The totals of one team with a given name and owner, the fee and the nets. */
  function TeamLine(id: string, rows: seq<Challenge>, name: Option<string>, owner: Option<string>): (p: Payout)
    ensures p.id == id && p.name == name && p.owner == owner
    ensures p.won == WonBy(rows, id, false) && p.paid == WonBy(rows, id, true) && p.fee == LeagueFee
    ensures p.netAwarded == p.won - p.fee && p.netPaid == p.paid - p.fee
  {
    var won := WonBy(rows, id, false);
    var paid := WonBy(rows, id, true);
    Payout(id, name, owner, won, paid, LeagueFee, won - LeagueFee, paid - LeagueFee)
  }

  /** The left merge of one team's totals with Teams on `team_id`: one row per matching team, or one without name and owner. */
  function TeamPayouts(id: string, rows: seq<Challenge>, teams: seq<Team>): (r: seq<Payout>)
    ensures |r| >= 1
    ensures forall p :: p in r ==> p == TeamLine(id, rows, p.name, p.owner)
    ensures forall p :: p in r ==>
      (exists t :: t in teams && t.id == Some(id) && p.name == t.name && p.owner == t.owner) ||
      (p.name.None? && p.owner.None? && forall t :: t in teams ==> t.id != Some(id))
    ensures |r| == if Hits(Some(id), teams, SameKey) == [] then 1 else |Hits(Some(id), teams, SameKey)|
    ensures Hits(Some(id), teams, SameKey) != [] ==> forall k :: 0 <= k < |r| ==>
      r[k] == TeamLine(id, rows, Hits(Some(id), teams, SameKey)[k].name, Hits(Some(id), teams, SameKey)[k].owner)
  {
    var hits := Hits(Some(id), teams, SameKey);
    if hits == [] then [TeamLine(id, rows, None, None)]
    else
      var r := seq(|hits|, k requires 0 <= k < |hits| => TeamLine(id, rows, hits[k].name, hits[k].owner));
      assert forall p :: p in r ==> exists k :: 0 <= k < |hits| && p == TeamLine(id, rows, hits[k].name, hits[k].owner);
      r
  }

  /** The merged table before sorting: the rows of each winning team in turn. */
  function ByTeam(ids: seq<string>, rows: seq<Challenge>, teams: seq<Team>): (r: seq<Payout>)
    ensures |r| >= |ids|
  {
    if ids == [] then []
    else TeamPayouts(ids[0], rows, teams) + ByTeam(ids[1..], rows, teams)
  }

  /** Every row of the merged table belongs to a winning team and carries that team's totals, fee and nets. */
  lemma {:induction false} ByTeamRows(ids: seq<string>, rows: seq<Challenge>, teams: seq<Team>)
    ensures forall p :: p in ByTeam(ids, rows, teams) ==> p.id in ids && p == TeamLine(p.id, rows, p.name, p.owner)
  {
    if ids != [] {
      ByTeamRows(ids[1..], rows, teams);
      var first := TeamPayouts(ids[0], rows, teams);
      forall p | p in ByTeam(ids, rows, teams) ensures p.id in ids && p == TeamLine(p.id, rows, p.name, p.owner) {
        if p !in first {
          assert p in ByTeam(ids[1..], rows, teams);
        }
      }
    }
  }

  /** Every winning team has a row. */
  lemma {:induction false} ByTeamCovers(ids: seq<string>, rows: seq<Challenge>, teams: seq<Team>, id: string)
    requires id in ids
    ensures exists p :: p in ByTeam(ids, rows, teams) && p.id == id
  {
    if ids[0] == id {
      var first := TeamPayouts(ids[0], rows, teams);
      assert first[0] in ByTeam(ids, rows, teams);
    } else {
      ByTeamCovers(ids[1..], rows, teams, id);
    }
  }

  /** With unique team identifiers each winning team has exactly one row, named by `NameOf`. */
  lemma {:induction false} ByTeamUnique(ids: seq<string>, rows: seq<Challenge>, teams: seq<Team>)
    requires UniqueIds(teams)
    ensures |ByTeam(ids, rows, teams)| == |ids|
    ensures forall k :: 0 <= k < |ids| ==>
      ByTeam(ids, rows, teams)[k].id == ids[k] && ByTeam(ids, rows, teams)[k].name == NameOf(teams, Some(ids[k]))
  {
    if ids != [] {
      ByTeamUnique(ids[1..], rows, teams);
      OneRowPerTeam(ids[0], rows, teams, false);
      var first := TeamPayouts(ids[0], rows, teams);
      var rest := ByTeam(ids[1..], rows, teams);
      var r := ByTeam(ids, rows, teams);
      assert r == first + rest;
      forall k | 0 <= k < |ids| ensures r[k].id == ids[k] && r[k].name == NameOf(teams, Some(ids[k])) {
        if k == 0 {
          assert r[0] == first[0];
        } else {
          assert r[k] == rest[k - 1];
        }
      }
    }
  }

  /** Sum of the won (or paid) column of a payouts table. */
  function Column(ps: seq<Payout>, paidOnly: bool): (t: int) {
    if ps == [] then 0 else (if paidOnly then ps[0].paid else ps[0].won) + Column(ps[1..], paidOnly)
  }

  lemma {:induction false} ColumnConcat(a: seq<Payout>, b: seq<Payout>, paidOnly: bool)
    ensures Column(a + b, paidOnly) == Column(a, paidOnly) + Column(b, paidOnly)
  {
    if a == [] {
      assert a + b == b;
    } else {
      assert (a + b)[0] == a[0];
      assert (a + b)[1..] == a[1..] + b;
      ColumnConcat(a[1..], b, paidOnly);
    }
  }

  /** Taking a row out of the table takes its amount out of the column's sum. */
  lemma ColumnRemove(b: seq<Payout>, k: int, paidOnly: bool)
    requires 0 <= k < |b|
    ensures Column(b, paidOnly) == (if paidOnly then b[k].paid else b[k].won) + Column(b[..k] + b[k + 1..], paidOnly)
  {
    var tail := [b[k]] + b[k + 1..];
    assert b == b[..k] + tail;
    ColumnConcat(b[..k], tail, paidOnly);
    ColumnConcat(b[..k], b[k + 1..], paidOnly);
    assert tail[0] == b[k] && tail[1..] == b[k + 1..];
  }

  lemma MultisetRemove(a: seq<Payout>, b: seq<Payout>, k: int)
    requires a != [] && multiset(a) == multiset(b) && 0 <= k < |b| && b[k] == a[0]
    ensures multiset(a[1..]) == multiset(b[..k] + b[k + 1..])
  {
    assert b == b[..k] + [b[k]] + b[k + 1..];
    assert multiset(b) == multiset(b[..k]) + multiset{b[k]} + multiset(b[k + 1..]);
    assert multiset(b[..k] + b[k + 1..]) == multiset(b[..k]) + multiset(b[k + 1..]);
    assert a == [a[0]] + a[1..];
    assert multiset(a) == multiset{a[0]} + multiset(a[1..]);
    assert multiset(a[1..]) == multiset(a) - multiset{a[0]};
    assert multiset(b[..k] + b[k + 1..]) == multiset(b) - multiset{b[k]};
  }

  /** Reordering the table does not change a column's sum. */
  lemma {:induction false} ColumnPermuted(a: seq<Payout>, b: seq<Payout>, paidOnly: bool)
    requires multiset(a) == multiset(b)
    ensures Column(a, paidOnly) == Column(b, paidOnly)
    decreases |a|
  {
    if a != [] {
      assert a[0] in multiset(b);
      var k :| 0 <= k < |b| && b[k] == a[0];
      MultisetRemove(a, b, k);
      ColumnPermuted(a[1..], b[..k] + b[k + 1..], paidOnly);
      ColumnRemove(b, k, paidOnly);
    } else {
      assert |b| == |multiset(b)| == 0;
    }
  }

  /** With unique team identifiers a team's merge gives one row, carrying its totals and the name `NameOf` gives. */
  lemma OneRowPerTeam(id: string, rows: seq<Challenge>, teams: seq<Team>, paidOnly: bool)
    requires UniqueIds(teams)
    ensures |TeamPayouts(id, rows, teams)| == 1
    ensures TeamPayouts(id, rows, teams)[0].id == id
    ensures TeamPayouts(id, rows, teams)[0].name == NameOf(teams, Some(id))
    ensures Column(TeamPayouts(id, rows, teams), paidOnly) == WonBy(rows, id, paidOnly)
  {
    UniqueMatch(teams, Some(id));
    var r := TeamPayouts(id, rows, teams);
    assert r[1..] == [];
  }

  /** With one row per team, the won (paid) column sums to the sum over the teams. */
  lemma {:induction false} ColumnOfByTeam(ids: seq<string>, rows: seq<Challenge>, teams: seq<Team>, paidOnly: bool)
    requires UniqueIds(teams)
    ensures Column(ByTeam(ids, rows, teams), paidOnly) == SumOver(ids, rows, paidOnly)
    decreases |ids|
  {
    if ids != [] {
      var last := ids[|ids| - 1];
      var front := ids[..|ids| - 1];
      var a := ByTeam(front, rows, teams);
      var b := TeamPayouts(last, rows, teams);
      assert ByTeam(ids, rows, teams) == a + b by {
        ByTeamSplit(front, last, rows, teams);
        assert front + [last] == ids;
      }
      ColumnOfByTeam(front, rows, teams, paidOnly);
      OneRowPerTeam(last, rows, teams, paidOnly);
      ColumnConcat(a, b, paidOnly);
    }
  }

  lemma {:induction false} ByTeamSplit(ids: seq<string>, last: string, rows: seq<Challenge>, teams: seq<Team>)
    ensures ByTeam(ids + [last], rows, teams) == ByTeam(ids, rows, teams) + TeamPayouts(last, rows, teams)
  {
    if ids == [] {
      assert ([] + [last])[1..] == [];
    } else {
      assert (ids + [last])[1..] == ids[1..] + [last];
      ByTeamSplit(ids[1..], last, rows, teams);
    }
  }

  /** `sort_values(["Total_Won", "team_name"], ascending=[False, True])`. */
  function PayoutKey(p: Payout): (k: seq<Atom>) {
    [Num(-p.won), StrOr(p.name)]
  }

  /** The payouts table. */
  function PayoutView(chal: Challenges, teams: Teams, showFuture: bool, maxWeek: int): (r: seq<Payout>)
    ensures |r| >= |WinnerIds(Awarded(chal, showFuture, maxWeek))|
    ensures forall p :: p in r ==> p == TeamLine(p.id, Awarded(chal, showFuture, maxWeek), p.name, p.owner)
  {
    var awarded := Awarded(chal, showFuture, maxWeek);
    var table := ByTeam(WinnerIds(awarded), awarded, teams.rows);
    SortByMembers(table, PayoutKey);
    ByTeamRows(WinnerIds(awarded), awarded, teams.rows);
    SortBy(table, PayoutKey)
  }

  /** Every team that won a challenge inside the window has a row. */
  lemma PayoutViewCovers(chal: Challenges, teams: Teams, showFuture: bool, maxWeek: int, c: Challenge)
    requires c in chal.rows && c.winner.Some? && Visible(chal.hasWeek, showFuture, maxWeek, c)
    ensures exists p :: p in PayoutView(chal, teams, showFuture, maxWeek) && p.id == c.winner.value
  {
    var awarded := Awarded(chal, showFuture, maxWeek);
    var ids := WinnerIds(awarded);
    var table := ByTeam(ids, awarded, teams.rows);
    assert c in awarded;
    var k :| 0 <= k < |awarded| && awarded[k] == c;
    WinnerIdsMembers(awarded, c.winner.value);
    ByTeamCovers(ids, awarded, teams.rows, c.winner.value);
    var p :| p in table && p.id == c.winner.value;
    SortByMembers(table, PayoutKey);
    assert p in PayoutView(chal, teams, showFuture, maxWeek);
  }

  /** Every row belongs to a team that won a challenge inside the window. */
  lemma PayoutViewOnlyWinners(chal: Challenges, teams: Teams, showFuture: bool, maxWeek: int, p: Payout)
    requires p in PayoutView(chal, teams, showFuture, maxWeek)
    ensures exists c :: c in chal.rows && c.winner == Some(p.id) && Visible(chal.hasWeek, showFuture, maxWeek, c)
  {
    var awarded := Awarded(chal, showFuture, maxWeek);
    var table := ByTeam(WinnerIds(awarded), awarded, teams.rows);
    SortByMembers(table, PayoutKey);
    assert p in table;
    ByTeamRows(WinnerIds(awarded), awarded, teams.rows);
    WinnerIdsMembers(awarded, p.id);
    var k :| 0 <= k < |awarded| && awarded[k].winner == Some(p.id);
    assert awarded[k] in awarded;
  }

  /** Ordered by money won, largest first; equal amounts by team name. */
  /** The payout key puts the larger `Total_Won` first, then orders by team name. */
  lemma PayoutKeyOrder(a: Payout, b: Payout)
    ensures KeyLe(PayoutKey(a), PayoutKey(b)) <==>
      a.won > b.won || (a.won == b.won && (a.name == b.name || AtomLe(StrOr(a.name), StrOr(b.name))))
  {
    KeyLe2(Num(-a.won), StrOr(a.name), Num(-b.won), StrOr(b.name));
  }

  lemma PayoutOrder(chal: Challenges, teams: Teams, showFuture: bool, maxWeek: int, i: int, j: int)
    requires 0 <= i < j < |PayoutView(chal, teams, showFuture, maxWeek)|
    ensures var r := PayoutView(chal, teams, showFuture, maxWeek);
      r[i].won >= r[j].won &&
      (r[i].won == r[j].won ==> r[i].name == r[j].name || AtomLe(StrOr(r[i].name), StrOr(r[j].name)))
  {
    var awarded := Awarded(chal, showFuture, maxWeek);
    var table := ByTeam(WinnerIds(awarded), awarded, teams.rows);
    var r := PayoutView(chal, teams, showFuture, maxWeek);
    SortBySorted(table, PayoutKey);
    SortedAt(r, PayoutKey, i, j);
    PayoutKeyOrder(r[i], r[j]);
  }

  /** With unique team identifiers the table's won and paid columns add up to the season totals. */
  lemma PayoutViewTotals(chal: Challenges, teams: Teams, showFuture: bool, maxWeek: int)
    requires UniqueIds(teams.rows)
    ensures Column(PayoutView(chal, teams, showFuture, maxWeek), false) == Total(Awarded(chal, showFuture, maxWeek), false)
    ensures Column(PayoutView(chal, teams, showFuture, maxWeek), true) == Total(Awarded(chal, showFuture, maxWeek), true)
  {
    var awarded := Awarded(chal, showFuture, maxWeek);
    var ids := WinnerIds(awarded);
    var table := ByTeam(ids, awarded, teams.rows);
    assert forall k :: 0 <= k < |awarded| ==> awarded[k].winner.Some? by {
      forall k | 0 <= k < |awarded| ensures awarded[k].winner.Some? {
        assert awarded[k] in awarded;
      }
    }
    ColumnPermuted(SortBy(table, PayoutKey), table, false);
    ColumnPermuted(SortBy(table, PayoutKey), table, true);
    ColumnOfByTeam(ids, awarded, teams.rows, false);
    ColumnOfByTeam(ids, awarded, teams.rows, true);
    SeasonTotals(awarded, false);
    SeasonTotals(awarded, true);
  }

  /** The awarded rows and one team's sums in the worked example below. */
  lemma ExampleSums(c1: Challenge, c2: Challenge)
    requires c1 == Challenge(Some(1), Some("High Score"), 50, Some("a"), true, None)
    requires c2 == Challenge(Some(1), Some("Best Bench"), 30, Some("a"), false, None)
    ensures Awarded(Challenges(true, false, [c1, c2]), false, 1) == [c1, c2]
    ensures WinnerIds([c1, c2]) == ["a"]
    ensures WonBy([c1, c2], "a", false) == 80 && WonBy([c1, c2], "a", true) == 50
  {
    var rows := [c1, c2];
    FilterAll(rows, (c: Challenge) => c.winner.Some?);
    FilterAll(rows, (c: Challenge) => c.week.Some?);
    FilterAll(rows, (c: Challenge) => c.week.Some? && c.week.value <= 1);
    assert rows[..1] == [c1];
    assert [c1][..0] == [];
    assert WinnerIds([c1]) == ["a"];
  }

  /** Against a single Teams row with the id, the merge gives one line with that row's name and owner. */
  lemma SingleTeam(id: string, rows: seq<Challenge>, team: Team)
    requires team.id == Some(id)
    ensures TeamPayouts(id, rows, [team]) == [TeamLine(id, rows, team.name, team.owner)]
  {
    assert Hits(Some(id), [team], SameKey) == [team];
  }

  /** One team winning 50 (paid) and 30 (unpaid): won 80, paid 50, nets -20 and -50 after the 100 fee. */
  lemma PayoutExample()
    ensures var team := Team(Some("a"), Some("A"), Some("Ann"), None);
      var rows := [Challenge(Some(1), Some("High Score"), 50, Some("a"), true, None),
                   Challenge(Some(1), Some("Best Bench"), 30, Some("a"), false, None)];
      PayoutView(Challenges(true, false, rows), Teams(false, true, [team]), false, 1) ==
        [Payout("a", Some("A"), Some("Ann"), 80, 50, 100, -20, -50)]
  {
    var team := Team(Some("a"), Some("A"), Some("Ann"), None);
    var c1 := Challenge(Some(1), Some("High Score"), 50, Some("a"), true, None);
    var c2 := Challenge(Some(1), Some("Best Bench"), 30, Some("a"), false, None);
    var rows := [c1, c2];
    ExampleSums(c1, c2);
    var line := Payout("a", Some("A"), Some("Ann"), 80, 50, 100, -20, -50);
    SingleTeam("a", rows, team);
    assert ByTeam(["a"], rows, [team]) == [line] by {
      assert ["a"][1..] == [];
    }
    assert SortBy([line], PayoutKey) == [line] by {
      assert [line][1..] == [];
    }
  }
}
