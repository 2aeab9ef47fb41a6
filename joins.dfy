/**
  The left join of challenge rows with the Teams sheet on
  `winner_team_id == team_id` that attaches a winner's display name.
 */
module Joins {
  import opened Wrappers
  import opened Ordering
  import opened Records

  /** A challenge row with the `team_name` the join attached (missing when nothing matched). */
  datatype Entry = Entry(ch: Challenge, winnerName: Option<string>)

  /** The challenge rows underneath joined rows. */
  function Rows(r: seq<Entry>): (cs: seq<Challenge>)
    ensures |cs| == |r|
    ensures forall k :: 0 <= k < |r| ==> cs[k] == r[k].ch
  {
    seq(|r|, k requires 0 <= k < |r| => r[k].ch)
  }

  function Names(ts: seq<Team>): (ns: seq<Option<string>>)
    ensures |ns| == |ts|
    ensures forall k :: 0 <= k < |ts| ==> ns[k] == ts[k].name
  {
    seq(|ts|, k requires 0 <= k < |ts| => ts[k].name)
  }

  /** pandas' merge key equality: two missing keys match each other. */
  predicate SameKeyAsWritten(winner: Option<string>, id: Option<string>) {
    winner == id
  }

  /** Key equality as a join on identifiers is meant: only present, equal identifiers match. */
  predicate SameKey(winner: Option<string>, id: Option<string>) {
    winner.Some? && winner == id
  }

  /** The Teams rows whose identifier matches this winner. */
  function Hits(winner: Option<string>, teams: seq<Team>, same: (Option<string>, Option<string>) -> bool): (h: seq<Team>)
    ensures forall t :: t in h <==> t in teams && same(winner, t.id)
  {
    if teams == [] then []
    else
      assert teams == [teams[0]] + teams[1..];
      (if same(winner, teams[0].id) then [teams[0]] else []) + Hits(winner, teams[1..], same)
  }

  /** No team matches a missing winner under the intended key equality. */
  lemma {:induction false} NoHitsForMissing(teams: seq<Team>)
    ensures Hits(None, teams, SameKey) == []
  {
    if teams != [] {
      NoHitsForMissing(teams[1..]);
    }
  }

  /** The output rows of a left join for one challenge: one per matching team, or one with no name. */
  function JoinRow(c: Challenge, teams: seq<Team>, same: (Option<string>, Option<string>) -> bool): (r: seq<Entry>)
    ensures |r| >= 1
    ensures forall k :: 0 <= k < |r| ==> r[k].ch == c
    ensures forall k :: 0 <= k < |r| && r[k].winnerName.Some? ==> r[k].winnerName in Names(Hits(c.winner, teams, same))
    ensures Hits(c.winner, teams, same) == [] ==> r == [Entry(c, None)]
    ensures Hits(c.winner, teams, same) != [] ==>
      |r| == |Hits(c.winner, teams, same)| && forall k :: 0 <= k < |r| ==> r[k].winnerName == Hits(c.winner, teams, same)[k].name
  {
    var hits := Hits(c.winner, teams, same);
    if hits == [] then [Entry(c, None)]
    else seq(|hits|, k requires 0 <= k < |hits| => Entry(c, hits[k].name))
  }

  /** `merge(..., how="left")` with the given key equality, rows in challenge order. */
  function JoinBy(rows: seq<Challenge>, teams: seq<Team>, same: (Option<string>, Option<string>) -> bool): (r: seq<Entry>)
    ensures |r| >= |rows|
  {
    if rows == [] then [] else JoinRow(rows[0], teams, same) + JoinBy(rows[1..], teams, same)
  }

  /** The join neither loses nor invents a challenge. */
  lemma {:induction false} JoinByRows(rows: seq<Challenge>, teams: seq<Team>, same: (Option<string>, Option<string>) -> bool)
    ensures forall c :: c in Rows(JoinBy(rows, teams, same)) <==> c in rows
  {
    if rows != [] {
      JoinByRows(rows[1..], teams, same);
      var head := JoinRow(rows[0], teams, same);
      var tail := JoinBy(rows[1..], teams, same);
      assert rows == [rows[0]] + rows[1..];
      assert Rows(head + tail) == Rows(head) + Rows(tail);
      assert Rows(head)[0] == rows[0];
      assert forall c :: c in Rows(head) ==> c == rows[0];
    }
  }

  /** Every attached name is the name of a matching team. */
  lemma {:induction false} JoinByNames(rows: seq<Challenge>, teams: seq<Team>, same: (Option<string>, Option<string>) -> bool)
    ensures forall e :: e in JoinBy(rows, teams, same) && e.winnerName.Some? ==> e.winnerName in Names(Hits(e.ch.winner, teams, same))
  {
    if rows != [] {
      JoinByNames(rows[1..], teams, same);
      var head := JoinRow(rows[0], teams, same);
      var tail := JoinBy(rows[1..], teams, same);
      var r := head + tail;
      assert JoinBy(rows, teams, same) == r;
      forall e | e in r && e.winnerName.Some?
        ensures e.winnerName in Names(Hits(e.ch.winner, teams, same))
      {
        if e in head {
          var k :| 0 <= k < |head| && head[k] == e;
        } else {
          assert e in tail;
        }
      }
    }
  }

  /** The join as written: missing keys match each other. */
  function JoinAsWritten(rows: seq<Challenge>, teams: seq<Team>): (r: seq<Entry>)
    ensures |r| >= |rows|
    ensures forall c :: c in Rows(r) <==> c in rows
    ensures forall e :: e in r && e.winnerName.Some? ==> e.winnerName in Names(Hits(e.ch.winner, teams, SameKeyAsWritten))
  {
    JoinByRows(rows, teams, SameKeyAsWritten);
    JoinByNames(rows, teams, SameKeyAsWritten);
    JoinBy(rows, teams, SameKeyAsWritten)
  }

  /**
    The join as intended: every challenge keeps at least one row and no row
    is invented; a name is attached only from a team whose identifier equals
    the challenge's present winner, so a challenge nobody has won has no name.
   */
  function Join(rows: seq<Challenge>, teams: seq<Team>): (r: seq<Entry>)
    ensures forall c :: c in Rows(r) <==> c in rows
    ensures forall e :: e in r && e.winnerName.Some? ==>
      e.ch.winner.Some? && e.winnerName in Names(Hits(e.ch.winner, teams, SameKey))
  {
    JoinByRows(rows, teams, SameKey);
    JoinByNames(rows, teams, SameKey);
    NoHitsForMissing(teams);
    var r := JoinBy(rows, teams, SameKey);
    r
  }

  /** Every row of a join carries one of the joined challenges. */
  lemma JoinRowsIn(rows: seq<Challenge>, teams: seq<Team>)
    ensures forall e :: e in Join(rows, teams) ==> e.ch in rows
  {
    var joined := Join(rows, teams);
    forall e | e in joined ensures e.ch in rows {
      var k :| 0 <= k < |joined| && joined[k] == e;
      assert Rows(joined)[k] == e.ch;
    }
  }

  /** Every joined challenge appears in the join. */
  lemma JoinCovers(rows: seq<Challenge>, teams: seq<Team>, c: Challenge)
    requires c in rows
    ensures exists e :: e in Join(rows, teams) && e.ch == c
  {
    var joined := Join(rows, teams);
    assert c in Rows(joined);
    var m :| 0 <= m < |joined| && Rows(joined)[m] == c;
    assert joined[m] in joined;
  }

  /**
    As written, a challenge nobody has won picks up the name of a Teams row
    whose identifier is blank, because pandas matches a missing key to a
    missing key.
   */
  lemma JoinAsWrittenNamesUnwon(c: Challenge, blank: Team)
    requires c.winner.None? && blank.id.None? && blank.name.Some?
    ensures JoinAsWritten([c], [blank]) == [Entry(c, blank.name)]
  {
    assert [blank][1..] == [] && [c][1..] == [];
    assert Hits(c.winner, [blank], SameKeyAsWritten) == [blank];
    var head := JoinRow(c, [blank], SameKeyAsWritten);
    assert |head| == 1 && head[0] == Entry(c, blank.name);
    assert head == [Entry(c, blank.name)];
    assert JoinBy([c], [blank], SameKeyAsWritten) == head + JoinBy([], [blank], SameKeyAsWritten);
  }

  /** Identifiers are unique among the Teams rows that have one. */
  ghost predicate UniqueIds(teams: seq<Team>) {
    forall i, j :: 0 <= i < j < |teams| && teams[i].id.Some? ==> teams[i].id != teams[j].id
  }

  /**
    The Teams rows the name merge sees. Selecting `team_id` and `team_name`
    raises when the sheet has no `team_name`, and the `except` branch then
    leaves every challenge unmerged and unnamed: as if Teams were empty.
   */
  function MergeTable(teams: Teams): (t: seq<Team>) {
    if teams.hasName then teams.rows else []
  }

  /** Merging with no Teams rows keeps each challenge once, with no name. */
  lemma {:induction false} JoinByNoTeams(rows: seq<Challenge>, same: (Option<string>, Option<string>) -> bool)
    ensures |JoinBy(rows, [], same)| == |rows|
    ensures forall k :: 0 <= k < |rows| ==> JoinBy(rows, [], same)[k] == Entry(rows[k], None)
  {
    if rows != [] {
      JoinByNoTeams(rows[1..], same);
      assert JoinRow(rows[0], [], same) == [Entry(rows[0], None)];
      var tail := JoinBy(rows[1..], [], same);
      assert JoinBy(rows, [], same) == [Entry(rows[0], None)] + tail;
      forall k | 0 < k < |rows| ensures JoinBy(rows, [], same)[k] == Entry(rows[k], None) {
        assert rows[1..][k - 1] == rows[k];
      }
    }
  }

  /** Without a `team_name` column the merge falls back to one unnamed row per challenge, in order. */
  lemma JoinWithoutNames(rows: seq<Challenge>, teams: Teams)
    requires !teams.hasName
    ensures |Join(rows, MergeTable(teams))| == |rows|
    ensures forall k :: 0 <= k < |rows| ==> Join(rows, MergeTable(teams))[k] == Entry(rows[k], None)
  {
    JoinByNoTeams(rows, SameKey);
  }

  /** The display name for a winner: the name of the first team with that identifier, if any. */
  function NameOf(teams: seq<Team>, winner: Option<string>): (n: Option<string>)
    ensures n.Some? ==> winner.Some?
  {
    if teams == [] then None
    else if SameKey(winner, teams[0].id) then teams[0].name
    else NameOf(teams[1..], winner)
  }

  lemma {:induction false} HitsNone(winner: Option<string>, teams: seq<Team>)
    requires forall j :: 0 <= j < |teams| ==> !SameKey(winner, teams[j].id)
    ensures Hits(winner, teams, SameKey) == []
  {
    if teams != [] {
      HitsNone(winner, teams[1..]);
    }
  }

  /** With unique identifiers a winner matches at most one team, and `NameOf` gives its name. */
  lemma {:induction false} UniqueMatch(teams: seq<Team>, winner: Option<string>)
    requires UniqueIds(teams)
    ensures Hits(winner, teams, SameKey) == [] ==> NameOf(teams, winner).None?
    ensures Hits(winner, teams, SameKey) != [] ==>
      |Hits(winner, teams, SameKey)| == 1 && Hits(winner, teams, SameKey)[0].name == NameOf(teams, winner)
  {
    if teams != [] {
      var rest := teams[1..];
      assert UniqueIds(rest) by {
        forall i, j | 0 <= i < j < |rest| && rest[i].id.Some? ensures rest[i].id != rest[j].id {
          assert rest[i] == teams[i + 1] && rest[j] == teams[j + 1];
        }
      }
      UniqueMatch(rest, winner);
      assert teams == [teams[0]] + rest;
      if SameKey(winner, teams[0].id) {
        forall j | 0 <= j < |rest| ensures !SameKey(winner, rest[j].id) {
          assert rest[j] == teams[j + 1];
        }
        HitsNone(winner, rest);
      }
    }
  }

  /** One row per challenge, named by `NameOf`. */
  function Named(rows: seq<Challenge>, teams: seq<Team>): (r: seq<Entry>)
    ensures |r| == |rows|
  {
    if rows == [] then [] else [Entry(rows[0], NameOf(teams, rows[0].winner))] + Named(rows[1..], teams)
  }

  /** Every row of `Named` carries the name `NameOf` gives its winner. */
  lemma {:induction false} NamedNames(rows: seq<Challenge>, teams: seq<Team>)
    ensures forall e :: e in Named(rows, teams) ==> e.winnerName == NameOf(teams, e.ch.winner)
  {
    if rows != [] {
      NamedNames(rows[1..], teams);
    }
  }

  /** `Named` keeps the challenges, in order. */
  lemma {:induction false} NamedRows(rows: seq<Challenge>, teams: seq<Team>)
    ensures Rows(Named(rows, teams)) == rows
  {
    if rows != [] {
      NamedRows(rows[1..], teams);
      var r := Named(rows, teams);
      assert r == [r[0]] + Named(rows[1..], teams);
      assert Rows(r) == [rows[0]] + Rows(Named(rows[1..], teams));
      assert rows == [rows[0]] + rows[1..];
    }
  }

  /** With unique identifiers each challenge contributes one joined row, named by `NameOf`. */
  lemma {:induction false} JoinByUnique(rows: seq<Challenge>, teams: seq<Team>)
    requires UniqueIds(teams)
    ensures JoinBy(rows, teams, SameKey) == Named(rows, teams)
  {
    if rows != [] {
      JoinByUnique(rows[1..], teams);
      UniqueMatch(teams, rows[0].winner);
      assert JoinRow(rows[0], teams, SameKey) == [Entry(rows[0], NameOf(teams, rows[0].winner))];
    }
  }

  /** With unique team identifiers the join keeps exactly one row per challenge, in order. */
  lemma JoinUnique(rows: seq<Challenge>, teams: seq<Team>)
    requires UniqueIds(teams)
    ensures Join(rows, teams) == Named(rows, teams)
    ensures |Join(rows, teams)| == |rows| && Rows(Join(rows, teams)) == rows
  {
    JoinByUnique(rows, teams);
    NamedRows(rows, teams);
  }
}
