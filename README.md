# League portal: a verified model of the dashboard's data layer

`app.py` is a Streamlit page for a fantasy-football league. It reads three
published spreadsheets (Teams, Weeks, Challenges), cleans their headers and
cells, and works out the current league week. It then shows four views: this
week's challenges, the history of challenge winners, payouts by team with the
league fee netted out, and the survivor (guillotine) board.

This project models everything under the widgets and proves what each step
promises.

- **Header normaliser** (`frames.dfy`, `text.dfy`). `RawTable` is a spreadsheet
  held in memory. Its methods `NormCols`, `RenameColumn` and
  `EnsureWeekHeaders` rewrite its header list and columns in place, as the
  loader does.
- **Lenient coercions and the loader** (`coerce.dfy`). These cover identifiers,
  the loose yes/no flag, the prize and paid defaults, and the
  `survivor_eliminated_week` alias. `Load` runs the header steps on the three
  tables in order and reads typed rows (`records.dfy`) off the cleaned frames.
  pandas' number and date parsers are parameters that return `Option`.
- **Week resolver** (`weeks.dfy`). This is the three-tier rule over the calendar,
  with "today" as a parameter. It also covers the fallback to the challenge
  table and the `MAX_WEEK` cut-off.
- **Views** (`joins.dfy`, `ordering.dfy`, `thisweek.dfy`, `history.dfy`,
  `payouts.dfy`, `survivor.dfy`). These model pandas' left merge, its
  `sort_values` (a key list compared column by column, with missing values
  last) and boolean masks. On top of them sit the de-duplication by
  `challenge_id`, the history order with "High Score" first, the per-team
  totals and nets, and the alive/eliminated split.

Where the code and the documented intent differ, the model follows the code,
with two exceptions. The two defects listed under "## Findings" are each
modelled twice, as written and as intended, and the views are built on the
intended versions: the views use the corrected merge `Joins.Join`, and the
week resolver uses the corrected fallback `Weeks.FallbackWeek`. "## Left out"
names the members concerned. Otherwise:

- A prize is whatever the parser returns, or 0. The code does not clamp it, so
  it may be negative. `Payouts.PaidAtMostWon` assumes non-negative prizes.
- The de-duplication sort's third key is `challenge_id`. Every row in a group
  shares that id, so this key never decides which row survives
  (`ThisWeek.CidNeverBreaksTies`). pandas sorts on several columns stably,
  so among rows of equal rank the first in the merged table survives; the
  model's sort is stable too (`Ordering.SortByStable`), and
  `ThisWeek.DedupKeepsFirst` states which row is kept.
- The loader's "prize amount" → `prize_amount` rename runs after `norm_cols`,
  which has already turned every space into `_`. So the rename can never fire
  (`Frames.PrizeAliasUnreachable`).
- `MAX_WEEK = int(wk_current or 1)` turns a resolved week 0 into 1
  (`Weeks.MaxWeekOf`).

## Model

| member | source | states |
|---|---|---|
| Text.Trim | app.py:18 | `strip()`: the result is a middle slice of the input with only whitespace cut off before and after it; it has no whitespace at either end, and it is empty exactly when the input is all whitespace |
| Text.StripSlice | app.py:18 | cutting whitespace off the front and then off the back of the rest leaves a slice of the input with only whitespace around it, empty exactly for all-whitespace input |
| Text.TrimLeft | app.py:18 | the result is a suffix of the input; everything dropped is whitespace; the result does not start with whitespace |
| Text.TrimRight | app.py:18 | the result is a prefix of the input; everything dropped is whitespace; the result does not end with whitespace |
| Text.Lower | app.py:18 | `lower()`: same length; each character is lower-cased by `LowerChar`, which maps an upper-case letter to the letter 32 code points above and keeps every other character; no upper-case letter is left |
| Text.Underscore | app.py:18 | `replace(" ", "_")`: same length, no space left, every space becomes `_`, every other character is kept |
| Text.NormLabelIsNormalised | app.py:18 | a normalised header has no whitespace at either end, no capital letter and no space |
| Text.NormLabelOfNormalised | app.py:18 | a header already in that form normalises to itself |
| Text.NormLabelIdempotent | app.py:17-19 | normalising an already normalised header changes nothing |
| Text.NormLabelHasNoSpace | app.py:18 | a normalised header contains no space |
| Text.SquashIsSquashed | app.py:33-39 | a trimmed, lower-cased text has no whitespace at either end and no capital letter |
| Text.SquashIdempotent | app.py:33-39 | trimming and lower-casing twice is the same as once |
| Text.StrLeTotal | app.py:151 | any two names are comparable under Python's string order |
| Text.StrLeAntisymmetric | app.py:151 | two names that are each at most the other are equal |
| Text.StrLeTransitive | app.py:151 | the string order is transitive |
| Frames.NormLabels | app.py:18 | the header list keeps its length, and position i holds the normalised form of label i |
| Frames.ColumnOf | app.py:29-30 | `df[name]` is present exactly when the label is among the headers, with one cell per row |
| Frames.ColumnOfFirst | app.py:29-30 | the lookup reads the first column carrying the label |
| Frames.RawTable.NormCols | app.py:17-19 | `norm_cols`: the headers become their normalised forms in place; no cell changes |
| Frames.Rename | app.py:68-69 | `rename`: same length; every label equal to `from` becomes `to`, every other label is kept, and when the two labels differ the old one no longer appears |
| Frames.RawTable.RenameColumn | app.py:68-69 | the in-place rename replaces the header list with its renamed form; no cell changes |
| Frames.PrizeAlias | app.py:67-69 | the rename fires only when "prize amount" is present and `prize_amount` is not; it then leaves `prize_amount` present, no "prize amount" and every other label as it was; otherwise the headers are unchanged |
| Frames.AddAlias | app.py:29-30 | one alias step keeps the frame well formed and its height, and never leaves fewer columns than it found |
| Frames.AddAliases | app.py:28-30 | applying alias steps keeps the frame well formed and its height, and never leaves fewer columns than it found |
| Frames.AddAliasKeeps | app.py:29-30 | one alias step appends at most the destination column and leaves every existing column in place |
| Frames.FindAppend | app.py:29-30 | appending a column leaves every existing label found where it was, and the new label, when new, is found at the end |
| Frames.AddAliasLookup | app.py:29-30 | after one alias step, only the destination's lookup changes, and it becomes the existing destination or else the source |
| Frames.WeekAliasSteps | app.py:27-30 | the alias table is applied in the order start, startdate, end, enddate |
| Frames.WeekHeadersKeep | app.py:25-31 | `ensure_week_headers` keeps every existing column as a prefix, adds at most four, and adds only `start_date` or `end_date` |
| Frames.WeekHeadersLookup | app.py:25-31 | `start_date` reads as the existing `start_date`, else `start`, else `startdate` (same for `end_date`); every other column reads as before |
| Frames.RawTable.EnsureWeekHeaders | app.py:25-31 | the loop leaves the table equal to all four alias steps applied to its old value |
| Frames.PrizeAliasUnreachable | app.py:67-69 | no normalised header is "prize amount", so the guarded rename leaves the headers unchanged |
| Coerce.NormId | app.py:33-36 | an identifier is missing exactly when its trimmed, lower-cased text is "", "nan" or "none"; otherwise it is that text, so "T9 " becomes "t9" |
| Coerce.AsText | app.py:35 | `astype(str)`: a present cell is its text, and the text is "nan" exactly for a missing cell or the literal text "nan" |
| Coerce.NormIdStable | app.py:33-36 | a normalised identifier normalises to itself |
| Coerce.ToBoolLoose | app.py:38-39 | a paid cell is true exactly when its trimmed, lower-cased text is y, yes, true or 1 |
| Coerce.ToBoolLooseIgnoresCaseAndSpace | app.py:38-39 | surrounding whitespace and letter case never change the flag |
| Coerce.EliminatedColumn | app.py:84-87 | the elimination column exists exactly when `eliminated_week` or `survivor_eliminated_week` does; `eliminated_week` wins when present, `survivor_eliminated_week` is used only without it |
| Coerce.TeamsOf | app.py:79-87 | one team per row, flagged when the sheet has `team_name`; the id is the normalised `team_id` cell (none without that column), name and owner are the row's cells, the elimination week is the parsed cell of the elimination column; everyone alive without that column |
| Coerce.CalendarOf | app.py:71-74 | one window per row holding the parsed week, start and end cells; the calendar is usable exactly when `week`, `start_date` and `end_date` all exist |
| Coerce.ChallengeRow | app.py:76-92 | a typed challenge row: week is the parsed cell, winner the normalised `winner_team_id` cell (none without the column), paid the loose flag (false without the column), prize the parsed amount or 0, name and id the row's cells |
| Coerce.ChallengesOf | app.py:76-92 | one challenge per sheet row, each the typed row above; the week and id columns are flagged exactly when present |
| Coerce.Load | app.py:62-94 | the three tables are cleaned in place in the loader's order, and the snapshot is read off the cleaned tables |
| Weeks.FirstCovering | app.py:45-47 | `hit.iloc[0]`: absent exactly when no window contains today, otherwise the first window that does |
| Weeks.LatestStarted | app.py:48-50 | absent exactly when no window with a week has started, otherwise such a window with the latest start |
| Weeks.MinWeek | app.py:51-52 | the smallest week present, absent exactly when no row has a week |
| Weeks.CurrentWeekFromCalendar | app.py:41-52 | unknown exactly when the calendar is empty, lacks a column, or has no week; otherwise the first covering window's week, else the week of the latest-started window, else the smallest week |
| Weeks.MaxWeek | app.py:105 | the largest challenge week, absent exactly when every week is blank |
| Weeks.FallbackWeekAsWritten | app.py:105 | fails exactly when the table has a week column and rows but every week is blank |
| Weeks.FallbackRaisesOnBlankWeek | app.py:105 | one challenge with a blank week makes the written fallback fail |
| Weeks.FallbackWeek | app.py:103-105 | the largest challenge week, or 1 when there is none; it agrees with the written fallback wherever that succeeds |
| Weeks.ResolveWeek | app.py:103-105 | the calendar's week whenever the calendar gives one, otherwise the fallback; so the result is 1 or a week that the calendar or the challenges carry |
| Weeks.MaxWeekOf | app.py:121 | `MAX_WEEK` is 1 when the resolved week is 0 and the resolved week otherwise; never 0 |
| Weeks.ResolverInsideWindow | app.py:45-47 | with weeks 1 (days 0-5) and 2 (days 6-10), day 7 lies in week 2's window and resolves to 2 |
| Weeks.ResolverAfterSeason | app.py:48-50 | with the same calendar, day 20 is past both windows and resolves to the latest started week, 2 |
| Weeks.ResolverBeforeSeason | app.py:51-52 | with the same calendar, day -1 precedes both windows and resolves to the smallest week, 1 |
| Ordering.SortBy | app.py:149-151 | `sort_values` returns a permutation of its rows |
| Ordering.SortBySorted | app.py:149-151 | the sorted rows are in key order, with missing values last |
| Ordering.SortByMembers | app.py:149-151 | sorting neither adds nor drops a row |
| Ordering.SortByStable | app.py:149 | sorting is stable: the rows of any one key come out in their input order, as in pandas' multi-column sorts |
| Ordering.FilterFirst | app.py:150 | the first row a mask selects is the first accepted row of the table |
| Ordering.KeyLeTotal | app.py:199 | any two sort keys are comparable |
| Ordering.KeyLeTransitive | app.py:199 | the key order is transitive |
| Ordering.Filter | app.py:176-179 | a mask keeps exactly the rows it accepts |
| Ordering.FilterCount | app.py:268 | a mask keeps each accepted row as many times as it occurs and drops every other |
| Joins.Hits | app.py:139 | the teams a winner matches are exactly the teams whose key the join equates with it |
| Joins.JoinRow | app.py:139 | a left merge gives a challenge one row per matching team, named after that team, or a single row with no name when no team matches |
| Joins.JoinBy | app.py:139 | the merge has at least as many rows as there are challenges (that each challenge appears is `Joins.JoinByRows`) |
| Joins.JoinByRows | app.py:139 | the merge neither loses nor invents a challenge |
| Joins.JoinByNames | app.py:139 | every attached name belongs to a matching team |
| Joins.Join | app.py:137-141 | the intended merge keeps every challenge; a name is attached only for a present winner and only from a team with that identifier |
| Joins.JoinAsWritten | app.py:139 | the merge as written keeps every challenge and invents none; a name comes only from a team whose key pandas equates with the winner, a missing key included. It assumes Teams has a `team_id` column: without one the code does not merge at all (app.py:137, 181), while here every missing id would match |
| Joins.JoinByNoTeams | app.py:139 | a merge with no Teams rows keeps each challenge once, in order, with no name |
| Joins.JoinWithoutNames | app.py:138-141 | without a `team_name` column the selection raises and the `except` branch leaves one unnamed row per challenge, in order |
| Joins.JoinRowsIn | app.py:139 | every merged row carries a merged challenge |
| Joins.JoinCovers | app.py:139 | every challenge appears in the merge |
| Joins.JoinAsWrittenNamesUnwon | app.py:139 | as written, an unwon challenge takes the name of a Teams row whose id is blank |
| Joins.UniqueMatch | app.py:139 | with unique team identifiers, a winner matches at most one team, and that team's name is the winner's name |
| Joins.NamedNames | app.py:139 | each row of the one-row-per-challenge merge carries the name of its winner's team |
| Joins.JoinByUnique | app.py:139 | with unique team identifiers, each challenge contributes exactly one merged row, named after its winner |
| Joins.NamedRows | app.py:139 | the one-row-per-challenge merge keeps the challenges in their order |
| Joins.JoinUnique | app.py:139 | with unique team identifiers, the merge gives exactly one row per challenge, named after its winner |
| ThisWeek.WeekRows | app.py:134 | the week filter keeps exactly that week's rows, or every row when there is no week column |
| ThisWeek.OtherIds | app.py:150 | keeps exactly the rows whose `challenge_id` differs from the given one |
| ThisWeek.DropDuplicates | app.py:150 | `drop_duplicates` keeps only input rows and never adds any |
| ThisWeek.DropDuplicatesDistinct | app.py:150 | no two kept rows share a `challenge_id` |
| ThisWeek.DropDuplicatesCovers | app.py:150 | every `challenge_id` keeps a row |
| ThisWeek.DropDuplicatesKeepsLeast | app.py:149-150 | on sorted rows, the kept row of each id is at or below every row with that id |
| ThisWeek.DedupKeyOrder | app.py:148-149 | a row sorted at or before another with the same id outranks it: winner first, then paid |
| ThisWeek.Dedup | app.py:147-150 | the de-duplication keeps only input rows (which row of each id survives is stated by `ThisWeek.DedupOutranks` and `ThisWeek.DedupKeepsFirst`) |
| ThisWeek.DedupDistinct | app.py:147-150 | exactly one row per `challenge_id` is kept |
| ThisWeek.DedupCovers | app.py:147-150 | every `challenge_id` of the week keeps a row |
| ThisWeek.DedupOutranks | app.py:147-150 | the kept row has a winner if any duplicate does, and among those it is paid if any is |
| ThisWeek.CidNeverBreaksTies | app.py:149 | rows with the same id share the third sort key |
| ThisWeek.DedupPrefersWinner | app.py:147-150 | of two rows with the same id, only the one with a winner survives, whatever their order |
| ThisWeek.DropDuplicatesFirst | app.py:150 | `keep="first"`: each kept row is the first row of its `challenge_id` |
| ThisWeek.DedupKeepsFirst | app.py:149-150 | of the rows of one `challenge_id` tied on winner and paid status, the first in the merged table is kept |
| ThisWeek.Kept | app.py:134-150 | the kept rows belong to the selected week |
| ThisWeek.ThisWeekView | app.py:134-151 | every shown row is a challenge of the selected week |
| ThisWeek.ThisWeekViewKeepsRows | app.py:134-151 | without `challenge_id`, every challenge of the week is shown |
| ThisWeek.ThisWeekViewCoversIds | app.py:134-151 | with `challenge_id`, every challenge of the week has a shown row with its id |
| ThisWeek.ThisWeekViewDistinct | app.py:147-151 | with `challenge_id`, each id is shown once |
| ThisWeek.ThisWeekViewOutranks | app.py:147-151 | with `challenge_id`, the shown row of an id outranks every challenge of the week with that id |
| ThisWeek.ThisWeekViewSorted | app.py:151 | the view is in challenge-name order, with missing names last |
| ThisWeek.ThisWeekViewNames | app.py:137-141 | a shown winner name belongs to a team, among those the merge sees, whose identifier equals the row's present winner |
| ThisWeek.ThisWeekViewNamedByWinner | app.py:137-141 | with unique team identifiers, every shown row carries its winner's team name, and none when no team matches or the sheet has no `team_name` |
| ThisWeek.ThisWeekViewWithoutNames | app.py:137-151 | without `challenge_id` and `team_name` columns, each challenge of the week is shown once, with no name |
| History.WindowRows | app.py:176-179 | with future weeks hidden, only rows with a present week at most `MAX_WEEK`; otherwise every row |
| History.HistoryView | app.py:176-199 | every listed row is a challenge inside the window |
| History.HistoryCovers | app.py:176-199 | every challenge inside the window is listed |
| History.HistoryOneRowEach | app.py:181-199 | with unique team identifiers, the history is a reordering of the window's challenges, one row each, named after the winner (no name when the sheet has no `team_name`) |
| History.HistoryWithoutNames | app.py:181-185 | without a `team_name` column the history lists each challenge of the window once, with no name, whatever the Teams identifiers |
| History.HighScoreIgnoresCaseAndSpace | app.py:198 | surrounding whitespace and letter case in a challenge name never change its priority |
| History.BlankIsNotHighScore | app.py:198 | a challenge without a name (text "nan") never gets the "High Score" priority |
| History.PrioKeyOrder | app.py:199 | a week / priority / name key compares by week, then by the priority flag, then by name |
| History.HistoryKeyOrder | app.py:198-199 | the history key is at or below another exactly when its week comes first (blank weeks last), or the week is equal and it alone is "High Score", or both agree on that and its name comes first |
| History.HistoryPair | app.py:199 | in a sequence sorted by the history key, any earlier row is ordered before any later row as above |
| History.HistoryOrder | app.py:198-199 | weeks ascending with blank weeks last; within a week the "High Score" challenge (trimmed, any case) comes first; then names ascending |
| Payouts.Awarded | app.py:211-214 | the awarded rows are exactly the challenges with a winner inside the week window |
| Payouts.WonBy | app.py:220-224 | a team's total is non-negative when every prize is, and 0 when no row counts for it |
| Payouts.Total | app.py:255-256 | the season total is non-negative when every prize is |
| Payouts.PaidAtMostWon | app.py:220-228 | a team's paid total lies between 0 and its won total |
| Payouts.WinnerIds | app.py:220 | the groups are the distinct winner identifiers, each once |
| Payouts.WinnerIdsMembers | app.py:220 | an identifier is a group exactly when some awarded row has it as winner |
| Payouts.WonByStep | app.py:220-224 | an appended row adds its prize to its own team's sum and to no other |
| Payouts.SumOverStep | app.py:220-224 | a new awarded row adds its prize to the total over distinct teams exactly when its winner is among them |
| Payouts.NewWinner | app.py:220 | a row with a new winner opens that team's group, which held nothing before |
| Payouts.SeasonTotals | app.py:220-256 | summing `Total_Won` (or `Total_Paid`) over all winning teams gives the season total awarded (or paid) |
| Payouts.TeamLine | app.py:228-234 | a team's row holds its won and paid totals, the fee of 100, `Net_Awarded = won - fee` and `Net_Paid = paid - fee` |
| Payouts.TeamPayouts | app.py:229 | the Teams merge gives exactly one row per Teams row with the id, in Teams order, each that row's name and owner with the team's totals; or a single row with no name and owner when no Teams row has the id |
| Payouts.SingleTeam | app.py:229 | against one Teams row with the id, the merge is that row's single line |
| Payouts.ByTeam | app.py:220-234 | the table holds at least one row per winning team (what each row carries is stated by `Payouts.ByTeamRows`) |
| Payouts.ByTeamRows | app.py:220-234 | every row of the merged table belongs to one of the groups and is that team's line: its totals, the fee and the nets |
| Payouts.ByTeamCovers | app.py:220-229 | every winning team has a row |
| Payouts.ByTeamUnique | app.py:229 | with unique team identifiers, exactly one row per winning team, named after the team |
| Payouts.OneRowPerTeam | app.py:229 | with unique team identifiers, a team's merge gives one row, with its id, its name and its totals |
| Payouts.ColumnOfByTeam | app.py:220-234 | with unique team identifiers, the won (or paid) column of the merged table is the sum of the teams' totals |
| Payouts.ColumnPermuted | app.py:236 | reordering the table does not change a column's sum |
| Payouts.PayoutView | app.py:211-236 | every row carries its team's totals over the awarded rows, the fee and the nets |
| Payouts.PayoutViewCovers | app.py:211-236 | every team that won inside the window has a row |
| Payouts.PayoutViewOnlyWinners | app.py:211-236 | every row belongs to a team that won inside the window |
| Payouts.PayoutOrder | app.py:236 | rows are ordered by `Total_Won` descending, then by team name |
| Payouts.PayoutKeyOrder | app.py:236 | the payout key is at or below another exactly when its `Total_Won` is larger, or equal with a team name that comes first |
| Payouts.PayoutViewTotals | app.py:220-256 | with unique team identifiers, the table's won and paid columns add up to the season totals |
| Payouts.ExampleSums | app.py:211-224 | for two awarded rows won by one team, 50 paid and 30 unpaid, the one group sums to 80 won and 50 paid |
| Payouts.PayoutExample | app.py:220-236 | one team winning 50 (paid) and 30 (unpaid) shows won 80, paid 50, fee 100, nets -20 and -50 |
| Survivor.OutRows | app.py:275-281 | the eliminated rows are the teams with an elimination week, limited to `MAX_WEEK` unless future weeks are shown |
| Survivor.SurvivorView | app.py:265-287 | there is no board without an elimination column; otherwise "alive" is exactly the teams without an elimination week, and the eliminated list is as above |
| Survivor.AliveCounts | app.py:268 | each alive team is listed as often as it appears in Teams |
| Survivor.OutCounts | app.py:273-287 | each eliminated team shown is listed as often as it appears in Teams; every other team not at all |
| Survivor.AliveOutPartition | app.py:268-275 | every team is alive or eliminated, never both |
| Survivor.SurvivorCountsAll | app.py:268-275 | with future weeks shown, the two lists together hold every team |
| Survivor.AliveOrder | app.py:268 | the alive teams are in team-name order, missing names last |
| Survivor.OutOrder | app.py:275-287 | every eliminated team shown has an elimination week; the list is by week ascending, then team name |
| Survivor.OutKeyOrder | app.py:287 | between eliminated teams the key is at or below another exactly when its week is earlier, or equal with a team name that comes first |

## Left out

- Fetching the three sheets over HTTP and the five-minute cache (app.py:61-65). The tables arrive as headers plus cells. A cell is text, or missing where pandas' CSV reader would give NaN; that reader's NA detection is not modelled.
- The CSV reader's type inference. A cell is modelled as the raw text. A column pandas reads as numbers prints differently, for example `1.0` for a 1 in a column with blanks, and this changes what `norm_id_series` and `to_bool_loose` see.
- The internals of `pd.to_numeric(...).astype("Int64")` and `pd.to_datetime`. They are parameters `parseNum` and `parseDate` that return an integer or nothing. A fractional week, which makes the Int64 cast raise, is not modelled. `parseNum` also stands for the prize's bare `pd.to_numeric` (app.py:90), which has no Int64 cast: a fractional prize is modelled as whatever `parseNum` returns, a whole number or nothing.
- `datetime.now()`. "Today" is a parameter, as a day number.
- Streamlit rendering and widgets, the week caption with dates (app.py:108-117), `money()`, the `color_net` styling, the net toggle (both nets are computed) and the debug expander. The selected week, the "include future weeks" toggle and `MAX_WEEK` are parameters; the number input's bounds are not modelled.
- Display-only columns: `description`, `winner_details`, `eliminated_score`, `eliminated_note`, and `owner` in the alive table.
- Missing columns where pandas raises `KeyError`. This covers no `winner_team_id` in the de-duplication (app.py:148), no `challenge_name` in the week view's sort (app.py:151), no `week` or `challenge_name` in the history sort (app.py:198-199), no `prize_amount` or Teams `team_id` in the payouts (app.py:220, 229), no Teams `team_name` or `owner` in the payouts merge (app.py:229), and no Teams `team_name` in the survivor sorts (app.py:268, 287). The model reads such a column as blank in every row and carries on.
- The `except` branches around the merges (app.py:140-141, 184-185) other than the one for a missing `team_name`. That one is modelled: the merge sees no Teams rows (`Joins.MergeTable`) and each challenge keeps one unnamed row (`Joins.JoinWithoutNames`). A merge failing on mixed key types is not modelled, since keys are always text here.
- Unicode whitespace and case mapping. `strip` and `lower` are modelled on ASCII.
- Duplicate column labels after normalisation. A lookup takes the first column with the label.
- Floating-point money. Prizes, totals and the fee are whole dollars.
- The pandas `groupby` row order before the final sort. Payout rows are built in order of first appearance; only the final sort order is claimed.
- Ordering.SortBy: stable (`Ordering.SortByStable`), as pandas' multi-column sorts are (app.py:149, 199, 236, 287). The single-column sorts (app.py:48, 151, 268) use pandas' default quicksort, which is not stable; there the model fixes one placement of rows with equal keys, and no view claims anything about it.
- Weeks.LatestStarted: among windows with equal latest `start_date`, the chosen one is not specified.
- History.HistoryView: built on the corrected merge `Joins.Join`. As written (app.py:183), an unwon challenge is also paired with every Teams row whose `team_id` is blank, takes that row's name, and is listed once per such row (`Joins.JoinAsWritten`, `Joins.JoinAsWrittenNamesUnwon`).
- History.HistoryOneRowEach: holds of the corrected merge. `Joins.UniqueIds` constrains only present identifiers, so with two blank-id Teams rows the merge as written lists an unwon challenge twice.
- ThisWeek.Kept: built on the corrected merge `Joins.Join`; the as-written pairing of an unwon challenge with blank-id Teams rows (app.py:139) is not modelled in the week view.
- ThisWeek.ThisWeekViewNames: holds of the corrected merge `Joins.Join`, not of the merge as written. At app.py:139 an unwon challenge also takes the name of a Teams row whose `team_id` is blank (`Joins.JoinAsWrittenNamesUnwon`).
- ThisWeek.ThisWeekViewNamedByWinner: holds of the corrected merge `Joins.Join`. With a blank-id Teams row, the merge as written (app.py:139) names an unwon row, so "no name when no team matches" fails there, and several blank-id rows repeat it.
- ThisWeek.ThisWeekView: inherits the corrected merge from `ThisWeek.Kept`, so no shown row takes a blank-id team's name.
- Weeks.ResolveWeek: uses the corrected fallback `Weeks.FallbackWeek`, which gives week 1 where the code raises (app.py:105, `Weeks.FallbackWeekAsWritten`).
- Payouts.PaidAtMostWon: holds only when no prize is negative, which the loader does not enforce.

## Findings

| source | as written | input that shows it | evidently intended | confidence | as-written member | corrected member |
|---|---|---|---|---|---|---|
| app.py:139 | the left merge on `winner_team_id` = `team_id` also pairs a missing winner with a Teams row whose `team_id` is blank, because pandas matches missing keys to each other | a Teams row with blank `team_id` and name "Bye", plus an unwon challenge; "Bye" is shown as the winner | only a present winner identifier matches a team | not executed | Joins.JoinAsWrittenNamesUnwon | Joins.Join |
| app.py:105 | `int(chal["week"].dropna().max())` raises when the calendar gives no week and every challenge week is blank, which stops the page | an empty Weeks sheet and one challenge with a blank week | fall back to week 1, as when there are no challenges | not executed | Weeks.FallbackRaisesOnBlankWeek | Weeks.FallbackWeek |
