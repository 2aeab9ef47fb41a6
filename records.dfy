/**
  The three tables after loading, as typed rows. Optional fields are the
  cells pandas leaves as NaN/NA/NaT; dates are day numbers; prize money is
  whole dollars.
 */
module Records {
  import opened Wrappers

  /** A row of the Teams sheet. `eliminated` absent means still alive. */
  datatype Team = Team(id: Option<string>, name: Option<string>, owner: Option<string>, eliminated: Option<int>)

  /**
    `hasEliminated`: the sheet has `eliminated_week` or `survivor_eliminated_week`;
    `hasName`: the sheet has `team_name`.
   */
  datatype Teams = Teams(hasEliminated: bool, hasName: bool, rows: seq<Team>)

  /** A row of the Weeks sheet: a week number and its start and end days. */
  datatype Window = Window(week: Option<int>, start: Option<int>, end: Option<int>)

  /** `complete`: the sheet has all of `week`, `start_date` and `end_date`. */
  datatype Calendar = Calendar(complete: bool, rows: seq<Window>)

  /** A row of the Challenges sheet. `winner` absent means not yet won. */
  datatype Challenge = Challenge(
    week: Option<int>,
    name: Option<string>,
    prize: int,
    winner: Option<string>,
    paid: bool,
    cid: Option<string>)

  /** `hasWeek`/`hasCid`: the sheet has a `week`/`challenge_id` column. */
  datatype Challenges = Challenges(hasWeek: bool, hasCid: bool, rows: seq<Challenge>)

  datatype Snapshot = Snapshot(teams: Teams, calendar: Calendar, challenges: Challenges)
}
