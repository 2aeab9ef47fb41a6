/**
  The lenient coercions of the loader (`norm_id_series`, `to_bool_loose`,
  the numeric, date, prize and paid defaults) and the loader itself.
  pandas' number and date parsers are parameters: `parseNum` stands for
  `pd.to_numeric(errors="coerce")` followed by the cast to Int64, `parseDate`
  for `pd.to_datetime(errors="coerce")` giving a day number; both answer
  `None` where pandas gives NA/NaT.
 */
module Coerce {
  import opened Wrappers
  import opened Text
  import opened Frames
  import opened Records

  /** Texts that `norm_id_series` turns into a missing identifier. */
  const BlankIds: set<string> := {"", "nan", "none"}

  /** Texts that `to_bool_loose` reads as true. */
  const TrueWords: set<string> := {"y", "yes", "true", "1"}

  /** `astype(str)`: a NaN cell prints as "nan". */
  function AsText(c: Cell): (t: string)
    ensures t == "nan" <==> c == None || c == Some("nan")
    ensures c.Some? ==> t == c.value
  {
    match c
    case Some(s) => s
    case None => "nan"
  }

  /** `norm_id_series`: trimmed, lower-cased text, or missing when that text is blank, "nan" or "none". */
  function NormId(c: Cell): (r: Option<string>)
    ensures r.None? <==> Squash(AsText(c)) in BlankIds
    ensures r.Some? ==> r.value == Squash(AsText(c))
  {
    var t := Squash(AsText(c));
    if t in BlankIds then None else Some(t)
  }

  /** `to_bool_loose`: true exactly for the trimmed, lower-cased words y, yes, true, 1. */
  function ToBoolLoose(c: Cell): (b: bool)
    ensures b <==> Squash(AsText(c)) in TrueWords
  {
    Squash(AsText(c)) in TrueWords
  }

  /** A normalised identifier normalises to itself: identifiers such as "t9" survive a reload unchanged. */
  lemma NormIdStable(c: Cell)
    ensures NormId(c).Some? ==> NormId(Some(NormId(c).value)) == NormId(c)
  {
    SquashIdempotent(AsText(c));
  }

  /** Neither surrounding whitespace nor letter case changes the paid flag. */
  lemma ToBoolLooseIgnoresCaseAndSpace(s: string)
    ensures ToBoolLoose(Some(s)) == ToBoolLoose(Some(Squash(s)))
  {
    SquashIdempotent(s);
  }

  /** The cell in row `r` of a column, NaN when the column is absent. */
  function CellAt(col: Option<seq<Cell>>, r: nat): (c: Cell) {
    if col.Some? && r < |col.value| then col.value[r] else None
  }

  /** A cell through an abstract parser; NaN stays missing. */
  function Parsed(parse: string -> Option<int>, c: Cell): (n: Option<int>) {
    match c
    case Some(s) => parse(s)
    case None => None
  }

  /** `eliminated_week`, or `survivor_eliminated_week` when only that one is present. */
  function EliminatedColumn(f: Frame): (r: Option<seq<Cell>>)
    requires f.WellFormed()
    ensures r.Some? <==> "eliminated_week" in f.columns || "survivor_eliminated_week" in f.columns
    ensures "eliminated_week" in f.columns ==> r == ColumnOf(f, "eliminated_week")
    ensures "eliminated_week" !in f.columns ==> r == ColumnOf(f, "survivor_eliminated_week")
  {
    if "survivor_eliminated_week" in f.columns && "eliminated_week" !in f.columns then ColumnOf(f, "survivor_eliminated_week")
    else ColumnOf(f, "eliminated_week")
  }

  /** The Teams sheet as typed rows. */
  function TeamsOf(f: Frame, parseNum: string -> Option<int>): (t: Teams)
    requires f.WellFormed()
    ensures |t.rows| == f.height
    ensures t.hasEliminated <==> "eliminated_week" in f.columns || "survivor_eliminated_week" in f.columns
    ensures t.hasName <==> "team_name" in f.columns
    ensures "team_id" !in f.columns ==> forall r :: 0 <= r < |t.rows| ==> t.rows[r].id.None?
    ensures !t.hasEliminated ==> forall r :: 0 <= r < |t.rows| ==> t.rows[r].eliminated.None?
    ensures "team_id" in f.columns ==> forall r :: 0 <= r < |t.rows| ==> t.rows[r].id == NormId(ColumnOf(f, "team_id").value[r])
    ensures forall r :: 0 <= r < |t.rows| ==>
      t.rows[r].name == CellAt(ColumnOf(f, "team_name"), r) &&
      t.rows[r].owner == CellAt(ColumnOf(f, "owner"), r) &&
      t.rows[r].eliminated == Parsed(parseNum, CellAt(EliminatedColumn(f), r))
  {
    var ids := ColumnOf(f, "team_id");
    var names := ColumnOf(f, "team_name");
    var owners := ColumnOf(f, "owner");
    var elim := EliminatedColumn(f);
    Teams(elim.Some?, names.Some?, seq(f.height, r requires 0 <= r < f.height =>
      Team(
        if ids.Some? then NormId(ids.value[r]) else None,
        CellAt(names, r),
        CellAt(owners, r),
        Parsed(parseNum, CellAt(elim, r)))))
  }

  /** The Weeks sheet as typed rows. */
  function CalendarOf(f: Frame, parseNum: string -> Option<int>, parseDate: string -> Option<int>): (c: Calendar)
    requires f.WellFormed()
    ensures |c.rows| == f.height
    ensures c.complete <==> "week" in f.columns && "start_date" in f.columns && "end_date" in f.columns
    ensures forall r :: 0 <= r < |c.rows| ==>
      c.rows[r].week == Parsed(parseNum, CellAt(ColumnOf(f, "week"), r)) &&
      c.rows[r].start == Parsed(parseDate, CellAt(ColumnOf(f, "start_date"), r)) &&
      c.rows[r].end == Parsed(parseDate, CellAt(ColumnOf(f, "end_date"), r))
  {
    var weeks := ColumnOf(f, "week");
    var starts := ColumnOf(f, "start_date");
    var ends := ColumnOf(f, "end_date");
    Calendar(weeks.Some? && starts.Some? && ends.Some?, seq(f.height, r requires 0 <= r < f.height =>
      Window(Parsed(parseNum, CellAt(weeks, r)), Parsed(parseDate, CellAt(starts, r)), Parsed(parseDate, CellAt(ends, r)))))
  }

  /** Row `r` of the Challenges sheet, typed: prize defaults to 0 and paid to false. */
  function ChallengeRow(f: Frame, parseNum: string -> Option<int>, r: nat): (c: Challenge)
    requires f.WellFormed() && r < f.height
    ensures "paid" !in f.columns ==> !c.paid
    ensures "paid" in f.columns ==> (c.paid <==> Squash(AsText(ColumnOf(f, "paid").value[r])) in TrueWords)
    ensures c.prize == Parsed(parseNum, CellAt(ColumnOf(f, "prize_amount"), r)).GetOr(0)
    ensures "winner_team_id" !in f.columns ==> c.winner.None?
    ensures "winner_team_id" in f.columns ==> c.winner == NormId(ColumnOf(f, "winner_team_id").value[r])
    ensures c.week == Parsed(parseNum, CellAt(ColumnOf(f, "week"), r))
    ensures c.name == CellAt(ColumnOf(f, "challenge_name"), r) && c.cid == CellAt(ColumnOf(f, "challenge_id"), r)
  {
    var winners := ColumnOf(f, "winner_team_id");
    var paid := ColumnOf(f, "paid");
    Challenge(
      Parsed(parseNum, CellAt(ColumnOf(f, "week"), r)),
      CellAt(ColumnOf(f, "challenge_name"), r),
      Parsed(parseNum, CellAt(ColumnOf(f, "prize_amount"), r)).GetOr(0),
      if winners.Some? then NormId(winners.value[r]) else None,
      if paid.Some? then ToBoolLoose(paid.value[r]) else false,
      CellAt(ColumnOf(f, "challenge_id"), r))
  }

  /** The Challenges sheet as typed rows, one per sheet row. */
  function ChallengesOf(f: Frame, parseNum: string -> Option<int>): (c: Challenges)
    requires f.WellFormed()
    ensures |c.rows| == f.height
    ensures c.hasWeek <==> "week" in f.columns
    ensures c.hasCid <==> "challenge_id" in f.columns
    ensures forall r :: 0 <= r < |c.rows| ==> c.rows[r] == ChallengeRow(f, parseNum, r)
  {
    Challenges("week" in f.columns, "challenge_id" in f.columns,
      seq(f.height, r requires 0 <= r < f.height => ChallengeRow(f, parseNum, r)))
  }

  /**
    `load`: cleans the three headers in place, applies the two alias rules,
    and reads the typed tables off the cleaned frames.
   */
  method Load(teams: RawTable, weeks: RawTable, chal: RawTable,
              parseNum: string -> Option<int>, parseDate: string -> Option<int>)
    returns (snap: Snapshot)
    requires teams.Valid() && weeks.Valid() && chal.Valid()
    requires teams != weeks && weeks != chal && teams != chal
    modifies teams, weeks, chal
    ensures teams.Valid() && weeks.Valid() && chal.Valid()
    ensures teams.Value() == Frame(NormLabels(old(teams.columns)), old(teams.cells), teams.height)
    ensures chal.Value() == Frame(PrizeAlias(NormLabels(old(chal.columns))), old(chal.cells), chal.height)
    ensures weeks.Value() == AddAliases(Frame(NormLabels(old(weeks.columns)), old(weeks.cells), weeks.height), WeekAliases)
    ensures snap == Snapshot(
      TeamsOf(teams.Value(), parseNum),
      CalendarOf(weeks.Value(), parseNum, parseDate),
      ChallengesOf(chal.Value(), parseNum))
  {
    teams.NormCols();
    weeks.NormCols();
    chal.NormCols();
    if "prize amount" in chal.columns && "prize_amount" !in chal.columns {
      chal.RenameColumn("prize amount", "prize_amount");
    }
    weeks.EnsureWeekHeaders();
    snap := Snapshot(
      TeamsOf(teams.Value(), parseNum),
      CalendarOf(weeks.Value(), parseNum, parseDate),
      ChallengesOf(chal.Value(), parseNum));
  }
}
