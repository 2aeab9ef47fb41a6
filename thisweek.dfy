/**
  The "This Week's Challenges" view: the selected week's rows, joined to
  team names, de-duplicated by `challenge_id` and ordered by challenge name.
 */
module ThisWeek {
  import opened Wrappers
  import opened Ordering
  import opened Records
  import opened Joins

  /** The de-duplication sort: winner first, then paid first, then `challenge_id` ascending. */
  function DedupKey(e: Entry): (k: seq<Atom>) {
    [Num(if e.ch.winner.Some? then 0 else 1), Num(if e.ch.paid then 0 else 1), StrOr(e.ch.cid)]
  }

  /** The rows whose `challenge_id` differs from `cid` (a missing id equals a missing id). */
  function OtherIds(s: seq<Entry>, cid: Option<string>): (r: seq<Entry>)
    ensures |r| <= |s|
    ensures forall e :: e in r <==> e in s && e.ch.cid != cid
  {
    if s == [] then []
    else
      assert s == [s[0]] + s[1..];
      (if s[0].ch.cid != cid then [s[0]] else []) + OtherIds(s[1..], cid)
  }

  /** `drop_duplicates(subset=["challenge_id"], keep="first")`: the first row of each id, in order. */
  function DropDuplicates(s: seq<Entry>): (r: seq<Entry>)
    ensures |r| <= |s|
    ensures forall e :: e in r ==> e in s
    decreases |s|
  {
    if s == [] then []
    else [s[0]] + DropDuplicates(OtherIds(s[1..], s[0].ch.cid))
  }

  /** No two kept rows share a `challenge_id`. */
  lemma {:induction false} DropDuplicatesDistinct(s: seq<Entry>)
    ensures forall i, j :: 0 <= i < j < |DropDuplicates(s)| ==>
      DropDuplicates(s)[i].ch.cid != DropDuplicates(s)[j].ch.cid
    decreases |s|
  {
    if s != [] {
      var t := OtherIds(s[1..], s[0].ch.cid);
      DropDuplicatesDistinct(t);
      var rest := DropDuplicates(t);
      var r := DropDuplicates(s);
      assert r == [s[0]] + rest;
      forall i, j | 0 <= i < j < |r| ensures r[i].ch.cid != r[j].ch.cid {
        assert r[j] == rest[j - 1] && rest[j - 1] in t;
        if i > 0 {
          assert r[i] == rest[i - 1];
        }
      }
    }
  }

  /** Every `challenge_id` of the input keeps a row. */
  lemma {:induction false} DropDuplicatesCovers(s: seq<Entry>)
    ensures forall x :: x in s ==> exists e :: e in DropDuplicates(s) && e.ch.cid == x.ch.cid
    decreases |s|
  {
    if s != [] {
      var t := OtherIds(s[1..], s[0].ch.cid);
      DropDuplicatesCovers(t);
      var r := DropDuplicates(s);
      assert r == [s[0]] + DropDuplicates(t);
      forall x | x in s ensures exists e :: e in r && e.ch.cid == x.ch.cid {
        if x.ch.cid == s[0].ch.cid {
          assert s[0] in r;
        } else {
          assert x == s[0] || x in s[1..];
          assert x in t;
        }
      }
    }
  }

  lemma {:induction false} OtherIdsSorted(s: seq<Entry>, cid: Option<string>, key: Entry -> seq<Atom>)
    requires SortedBy(s, key)
    ensures SortedBy(OtherIds(s, cid), key)
  {
    if s != [] {
      assert SortedBy(s[1..], key);
      OtherIdsSorted(s[1..], cid, key);
      var rest := OtherIds(s[1..], cid);
      if s[0].ch.cid != cid {
        assert OtherIds(s, cid) == [s[0]] + rest;
        forall y | y in rest ensures KeyLe(key(s[0]), key(y)) {
          HeadBelow(s, key, y);
        }
        SortedCons(s[0], rest, key);
      }
    }
  }

  /** On a sorted table, each kept row is at or below every row sharing its `challenge_id`. */
  lemma {:induction false} DropDuplicatesKeepsLeast(s: seq<Entry>, key: Entry -> seq<Atom>)
    requires SortedBy(s, key)
    ensures forall e, x :: e in DropDuplicates(s) && x in s && x.ch.cid == e.ch.cid ==> KeyLe(key(e), key(x))
    decreases |s|
  {
    if s != [] {
      var t := OtherIds(s[1..], s[0].ch.cid);
      assert SortedBy(s[1..], key);
      OtherIdsSorted(s[1..], s[0].ch.cid, key);
      DropDuplicatesKeepsLeast(t, key);
      var r := DropDuplicates(s);
      var rest := DropDuplicates(t);
      assert r == [s[0]] + rest;
      forall e, x | e in r && x in s && x.ch.cid == e.ch.cid ensures KeyLe(key(e), key(x)) {
        var j :| 0 <= j < |s| && s[j] == x;
        if e == s[0] {
          SortedAt(s, key, 0, j);
        } else {
          assert e in rest;
          assert e in t;
          assert x != s[0];
          assert j > 0 && x in s[1..] by { assert s[1..][j - 1] == x; }
        }
      }
    }
  }

  /** The row a group keeps outranks the others: it has a winner if any does, and among those it is paid if any is. */
  ghost predicate Outranks(e: Entry, x: Entry) {
    (x.ch.winner.Some? ==> e.ch.winner.Some?) &&
    (x.ch.winner.Some? == e.ch.winner.Some? && x.ch.paid ==> e.ch.paid)
  }

  lemma DedupKeyOrder(e: Entry, x: Entry)
    requires e.ch.cid == x.ch.cid && KeyLe(DedupKey(e), DedupKey(x))
    ensures Outranks(e, x)
  {
    var a0, a1, a2 := Num(if e.ch.winner.Some? then 0 else 1), Num(if e.ch.paid then 0 else 1), StrOr(e.ch.cid);
    var b0, b1 := Num(if x.ch.winner.Some? then 0 else 1), Num(if x.ch.paid then 0 else 1);
    KeyLe3(a0, a1, a2, b0, b1, a2);
    KeyLe2(a1, a2, b1, a2);
  }

  /** The de-duplication step: sort by `DedupKey`, keep the first row per `challenge_id`. */
  function Dedup(s: seq<Entry>): (r: seq<Entry>)
    ensures |r| <= |s|
    ensures forall e :: e in r ==> e in s
  {
    SortByMembers(s, DedupKey);
    DropDuplicates(SortBy(s, DedupKey))
  }

  /** Exactly one row per `challenge_id` survives. */
  lemma DedupDistinct(s: seq<Entry>)
    ensures forall i, j :: 0 <= i < j < |Dedup(s)| ==> Dedup(s)[i].ch.cid != Dedup(s)[j].ch.cid
  {
    DropDuplicatesDistinct(SortBy(s, DedupKey));
  }

  /** Every `challenge_id` of the input keeps a row. */
  lemma DedupCovers(s: seq<Entry>, x: Entry)
    requires x in s
    ensures exists e :: e in Dedup(s) && e.ch.cid == x.ch.cid
  {
    SortByMembers(s, DedupKey);
    DropDuplicatesCovers(SortBy(s, DedupKey));
  }

  /** In each group the kept row outranks every duplicate. */
  lemma DedupOutranks(s: seq<Entry>, e: Entry, x: Entry)
    requires e in Dedup(s) && x in s && x.ch.cid == e.ch.cid
    ensures Outranks(e, x)
  {
    var sorted := SortBy(s, DedupKey);
    SortByMembers(s, DedupKey);
    SortBySorted(s, DedupKey);
    DropDuplicatesKeepsLeast(sorted, DedupKey);
    DedupKeyOrder(e, x);
  }

  /** The mask selecting the rows with a given `challenge_id`. */
  function HasId(cid: Option<string>): (p: Entry -> bool) {
    (y: Entry) => y.ch.cid == cid
  }

  /** Dropping the rows of one id leaves the rows of every other id as they were. */
  lemma {:induction false} OtherIdsKeeps(s: seq<Entry>, cid: Option<string>, other: Option<string>)
    requires other != cid
    ensures Filter(OtherIds(s, cid), HasId(other)) == Filter(s, HasId(other))
  {
    if s != [] {
      OtherIdsKeeps(s[1..], cid, other);
      var rest := OtherIds(s[1..], cid);
      FilterCons(s[0], s[1..], HasId(other));
      assert [s[0]] + s[1..] == s;
      if s[0].ch.cid != cid {
        assert OtherIds(s, cid) == [s[0]] + rest;
        FilterCons(s[0], rest, HasId(other));
      } else {
        assert OtherIds(s, cid) == rest;
      }
    }
  }

  /** A kept row other than the first comes from the rows of other ids. */
  lemma DropDuplicatesTail(s: seq<Entry>, e: Entry)
    requires s != [] && e in DropDuplicates(s) && e != s[0]
    ensures e in DropDuplicates(OtherIds(s[1..], s[0].ch.cid)) && e.ch.cid != s[0].ch.cid
  {
    var t := OtherIds(s[1..], s[0].ch.cid);
    assert DropDuplicates(s) == [s[0]] + DropDuplicates(t);
    assert e in t;
  }

  /** `keep="first"`: a kept row is the first row of its `challenge_id`. */
  lemma {:induction false} DropDuplicatesFirst(s: seq<Entry>, e: Entry)
    requires e in DropDuplicates(s)
    ensures Filter(s, HasId(e.ch.cid)) != [] && Filter(s, HasId(e.ch.cid))[0] == e
    decreases |s|
  {
    var same := HasId(e.ch.cid);
    if e == s[0] {
      FilterFirst(s, same, 0);
    } else {
      var t := OtherIds(s[1..], s[0].ch.cid);
      DropDuplicatesTail(s, e);
      DropDuplicatesFirst(t, e);
      OtherIdsKeeps(s[1..], s[0].ch.cid, e.ch.cid);
      FilterCons(s[0], s[1..], same);
      assert [s[0]] + s[1..] == s;
      assert Filter(s, same) == Filter(t, same);
    }
  }

  /** Rows of equal rank share their `challenge_id`. */
  lemma SameRankSameId(y: Entry, e: Entry)
    requires DedupKey(y) == DedupKey(e)
    ensures y.ch.cid == e.ch.cid
  {
    assert DedupKey(y)[2] == StrOr(y.ch.cid);
  }

  /**
    Of the rows of one `challenge_id` that tie on winner and paid status,
    the de-duplication keeps the first in the merged table's order.
   */
  lemma DedupKeepsFirst(s: seq<Entry>, e: Entry)
    requires e in Dedup(s)
    ensures Filter(s, KeyIs(DedupKey, DedupKey(e))) != [] && Filter(s, KeyIs(DedupKey, DedupKey(e)))[0] == e
  {
    var sorted := SortBy(s, DedupKey);
    var rank := KeyIs(DedupKey, DedupKey(e));
    DropDuplicatesFirst(sorted, e);
    var i := FilterHead(sorted, HasId(e.ch.cid));
    forall j | 0 <= j < i ensures !rank(sorted[j]) {
      if DedupKey(sorted[j]) == DedupKey(e) {
        SameRankSameId(sorted[j], e);
      }
    }
    FilterFirst(sorted, rank, i);
    SortByStable(s, DedupKey, DedupKey(e));
  }

  /** Two rows sharing a `challenge_id` also share the last de-duplication key, so it never decides which row is kept. */
  lemma CidNeverBreaksTies(e: Entry, x: Entry)
    requires e.ch.cid == x.ch.cid
    ensures DedupKey(e)[2] == DedupKey(x)[2]
  {
  }

  /** Two rows with one `challenge_id`, one with a winner: only the one with the winner survives. */
  lemma DedupPrefersWinner(won: Entry, open: Entry)
    requires won.ch.cid == open.ch.cid && won.ch.winner.Some? && open.ch.winner.None?
    ensures Dedup([won, open]) == [won]
  {
    var s := [won, open];
    var r := Dedup(s);
    DedupDistinct(s);
    DedupCovers(s, won);
    var e :| e in r && e.ch.cid == won.ch.cid;
    DedupOutranks(s, e, won);
    assert forall k :: 0 <= k < |r| ==> r[k] in s && r[k].ch.cid == won.ch.cid;
    assert |r| == 1 && r[0] == e;
  }

  /** `chal[chal["week"] == wk]`, or every row when the sheet has no week column. */
  function WeekRows(chal: Challenges, wk: int): (r: seq<Challenge>)
    ensures forall c :: c in r <==> c in chal.rows && (chal.hasWeek ==> c.week == Some(wk))
  {
    if chal.hasWeek then Filter(chal.rows, (c: Challenge) => c.week == Some(wk)) else chal.rows
  }

  function NameKey(e: Entry): (k: seq<Atom>) {
    [StrOr(e.ch.name)]
  }

  /** The week's joined rows, de-duplicated when the sheet has a `challenge_id` column. */
  function Kept(chal: Challenges, teams: Teams, wk: int): (r: seq<Entry>)
    ensures forall e :: e in r ==> e.ch in chal.rows && (chal.hasWeek ==> e.ch.week == Some(wk))
  {
    var joined := Join(WeekRows(chal, wk), MergeTable(teams));
    JoinRowsIn(WeekRows(chal, wk), MergeTable(teams));
    if chal.hasCid then Dedup(joined) else joined
  }

  /** The week view: the kept rows, by challenge name. */
  function ThisWeekView(chal: Challenges, teams: Teams, wk: int): (r: seq<Entry>)
    ensures forall e :: e in r ==> e.ch in chal.rows && (chal.hasWeek ==> e.ch.week == Some(wk))
  {
    SortByMembers(Kept(chal, teams, wk), NameKey);
    SortBy(Kept(chal, teams, wk), NameKey)
  }

  /** A shown name is the name of a team whose identifier equals the row's present winner. */
  lemma ThisWeekViewNames(chal: Challenges, teams: Teams, wk: int, e: Entry)
    requires e in ThisWeekView(chal, teams, wk) && e.winnerName.Some?
    ensures e.ch.winner.Some? && e.winnerName in Names(Hits(e.ch.winner, MergeTable(teams), SameKey))
  {
    SortByMembers(Kept(chal, teams, wk), NameKey);
    assert e in Join(WeekRows(chal, wk), MergeTable(teams));
  }

  /** With unique team identifiers every shown row carries its winner's team name, or none when unmatched. */
  lemma ThisWeekViewNamedByWinner(chal: Challenges, teams: Teams, wk: int, e: Entry)
    requires UniqueIds(teams.rows) && e in ThisWeekView(chal, teams, wk)
    ensures e.winnerName == NameOf(MergeTable(teams), e.ch.winner)
  {
    SortByMembers(Kept(chal, teams, wk), NameKey);
    JoinUnique(WeekRows(chal, wk), MergeTable(teams));
    NamedNames(WeekRows(chal, wk), MergeTable(teams));
    assert e in Join(WeekRows(chal, wk), MergeTable(teams));
  }

  /** Without `challenge_id` and `team_name` columns the view shows each challenge of the week once, with no name. */
  lemma ThisWeekViewWithoutNames(chal: Challenges, teams: Teams, wk: int)
    requires !chal.hasCid && !teams.hasName
    ensures |ThisWeekView(chal, teams, wk)| == |WeekRows(chal, wk)|
    ensures forall e :: e in ThisWeekView(chal, teams, wk) ==> e.winnerName.None?
  {
    var joined := Join(WeekRows(chal, wk), MergeTable(teams));
    JoinWithoutNames(WeekRows(chal, wk), teams);
    SortByMembers(joined, NameKey);
    forall e | e in joined ensures e.winnerName.None? {
      var k :| 0 <= k < |joined| && joined[k] == e;
    }
  }

  /** Without `challenge_id` every challenge of the week is shown as itself. */
  lemma ThisWeekViewKeepsRows(chal: Challenges, teams: Teams, wk: int, c: Challenge)
    requires !chal.hasCid && c in chal.rows && (chal.hasWeek ==> c.week == Some(wk))
    ensures exists e :: e in ThisWeekView(chal, teams, wk) && e.ch == c
  {
    JoinCovers(WeekRows(chal, wk), MergeTable(teams), c);
    SortByMembers(Kept(chal, teams, wk), NameKey);
  }

  /** With `challenge_id` every challenge of the week has a shown row carrying its id. */
  lemma ThisWeekViewCoversIds(chal: Challenges, teams: Teams, wk: int, c: Challenge)
    requires chal.hasCid && c in chal.rows && (chal.hasWeek ==> c.week == Some(wk))
    ensures exists e :: e in ThisWeekView(chal, teams, wk) && e.ch.cid == c.cid
  {
    var joined := Join(WeekRows(chal, wk), MergeTable(teams));
    JoinCovers(WeekRows(chal, wk), MergeTable(teams), c);
    var x :| x in joined && x.ch == c;
    DedupCovers(joined, x);
    SortByMembers(Kept(chal, teams, wk), NameKey);
  }

  /** With `challenge_id` the view shows each id once. */
  lemma ThisWeekViewDistinct(chal: Challenges, teams: Teams, wk: int)
    requires chal.hasCid
    ensures forall i, j :: 0 <= i < j < |ThisWeekView(chal, teams, wk)| ==>
      ThisWeekView(chal, teams, wk)[i].ch.cid != ThisWeekView(chal, teams, wk)[j].ch.cid
  {
    var kept := Kept(chal, teams, wk);
    var r := ThisWeekView(chal, teams, wk);
    DedupDistinct(Join(WeekRows(chal, wk), MergeTable(teams)));
    forall i, j | 0 <= i < j < |r| ensures r[i].ch.cid != r[j].ch.cid {
      SharedIdPermuted(kept, r, i, j);
    }
  }

  /** With `challenge_id` the shown row of an id outranks every challenge of the week with that id. */
  lemma ThisWeekViewOutranks(chal: Challenges, teams: Teams, wk: int, e: Entry, c: Challenge)
    requires chal.hasCid && e in ThisWeekView(chal, teams, wk)
    requires c in chal.rows && (chal.hasWeek ==> c.week == Some(wk)) && c.cid == e.ch.cid
    ensures Outranks(e, Entry(c, None))
  {
    var joined := Join(WeekRows(chal, wk), MergeTable(teams));
    JoinCovers(WeekRows(chal, wk), MergeTable(teams), c);
    var x :| x in joined && x.ch == c;
    SortByMembers(Kept(chal, teams, wk), NameKey);
    DedupOutranks(joined, e, x);
  }

  /** A row at two positions is counted at least twice. */
  lemma CountedTwice(b: seq<Entry>, i: int, j: int)
    requires 0 <= i < j < |b| && b[i] == b[j]
    ensures multiset(b)[b[i]] >= 2
  {
    assert b == b[..i] + [b[i]] + b[i + 1..j] + [b[j]] + b[j + 1..];
    assert multiset(b) == multiset(b[..i]) + multiset{b[i]} + multiset(b[i + 1..j]) + multiset{b[j]} + multiset(b[j + 1..]);
  }

  /** A row counted at least twice sits at a second position. */
  lemma SecondCopy(a: seq<Entry>, p: int) returns (m: int)
    requires 0 <= p < |a| && multiset(a)[a[p]] >= 2
    ensures 0 <= m < |a| && m != p && a[m] == a[p]
  {
    assert a == a[..p] + [a[p]] + a[p + 1..];
    assert multiset(a) == multiset(a[..p]) + multiset{a[p]} + multiset(a[p + 1..]);
    assert multiset(a[..p] + a[p + 1..]) == multiset(a[..p]) + multiset(a[p + 1..]);
    assert a[p] in a[..p] + a[p + 1..];
    if a[p] in a[..p] {
      var k :| 0 <= k < p && a[..p][k] == a[p];
      m := k;
    } else {
      var k :| 0 <= k < |a| - p - 1 && a[p + 1..][k] == a[p];
      m := p + 1 + k;
    }
  }

  /** Two rows of a permutation that share an id come from two rows of the original that do. */
  lemma SharedIdPermuted(a: seq<Entry>, b: seq<Entry>, i: int, j: int)
    requires multiset(a) == multiset(b)
    requires 0 <= i < j < |b|
    ensures b[i].ch.cid == b[j].ch.cid ==> exists p, q :: 0 <= p < q < |a| && a[p].ch.cid == a[q].ch.cid
  {
    if b[i].ch.cid == b[j].ch.cid {
      assert b[i] in multiset(a) && b[j] in multiset(a);
      var p :| 0 <= p < |a| && a[p] == b[i];
      var q :| 0 <= q < |a| && a[q] == b[j];
      if p == q {
        CountedTwice(b, i, j);
        q := SecondCopy(a, p);
      }
      if q < p {
        p, q := q, p;
      }
      assert a[p].ch.cid == a[q].ch.cid;
    }
  }

  /** The view is in challenge-name order (missing names last). */
  lemma ThisWeekViewSorted(chal: Challenges, teams: Teams, wk: int)
    ensures forall i, j :: 0 <= i < j < |ThisWeekView(chal, teams, wk)| ==>
      var r := ThisWeekView(chal, teams, wk);
      r[i].ch.name == r[j].ch.name || AtomLe(StrOr(r[i].ch.name), StrOr(r[j].ch.name))
  {
    var kept := Kept(chal, teams, wk);
    var r := ThisWeekView(chal, teams, wk);
    SortBySorted(kept, NameKey);
    forall i, j | 0 <= i < j < |r| ensures r[i].ch.name == r[j].ch.name || AtomLe(StrOr(r[i].ch.name), StrOr(r[j].ch.name)) {
      KeyLe1(StrOr(r[i].ch.name), StrOr(r[j].ch.name));
    }
  }
}
