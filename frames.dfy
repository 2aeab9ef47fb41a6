/**
  The three spreadsheet exports as they come back from the CSV reader, and the
  header clean-up applied to them in place: `norm_cols`, the "prize amount"
  rename and `ensure_week_headers`.
 */
module Frames {
  import opened Wrappers
  import opened Text

  /** A cell as the CSV reader leaves it: `None` is NaN (an empty cell). */
  type Cell = Option<string>

  /** A table by columns: `cells[j]` holds the column labelled `columns[j]`. */
  datatype Frame = Frame(columns: seq<string>, cells: seq<seq<Cell>>, height: nat) {
    ghost predicate WellFormed() {
      |cells| == |columns| && forall j :: 0 <= j < |cells| ==> |cells[j]| == height
    }
  }

  /** Position of the first column with this label. */
  function Find(cols: seq<string>, name: string): (r: Option<nat>)
    ensures r.None? <==> name !in cols
    ensures r.Some? ==> r.value < |cols| && cols[r.value] == name && name !in cols[..r.value]
  {
    if cols == [] then None
    else if cols[0] == name then Some(0)
    else
      match Find(cols[1..], name)
      case None => None
      case Some(k) =>
        assert cols[..k + 1] == [cols[0]] + cols[1..][..k];
        Some(k + 1)
  }

  /** `df[name]` when `name in df.columns`, else `None`. */
  function ColumnOf(f: Frame, name: string): (r: Option<seq<Cell>>)
    requires f.WellFormed()
    ensures r.Some? <==> name in f.columns
    ensures r.Some? ==> |r.value| == f.height
  {
    match Find(f.columns, name)
    case Some(j) => Some(f.cells[j])
    case None => None
  }

  /** The lookup reads the first column carrying the label. */
  lemma ColumnOfFirst(f: Frame, name: string, j: int)
    requires f.WellFormed() && 0 <= j < |f.columns| && f.columns[j] == name && name !in f.columns[..j]
    ensures ColumnOf(f, name) == Some(f.cells[j])
  {
  }

  /** The header list `norm_cols` assigns: same length and order, each label normalised. */
  function NormLabels(cols: seq<string>): (r: seq<string>)
    ensures |r| == |cols|
    ensures forall i :: 0 <= i < |cols| ==> r[i] == NormLabel(cols[i])
  {
    seq(|cols|, i requires 0 <= i < |cols| => NormLabel(cols[i]))
  }

  /** `rename(columns={from: to})`: every column labelled `from` is relabelled. */
  function Rename(cols: seq<string>, from: string, to: string): (r: seq<string>)
    ensures |r| == |cols|
    ensures from != to ==> from !in r
    ensures forall i :: 0 <= i < |r| && cols[i] != from ==> r[i] == cols[i]
    ensures forall i :: 0 <= i < |r| && cols[i] == from ==> r[i] == to
  {
    seq(|cols|, i requires 0 <= i < |cols| => if cols[i] == from then to else cols[i])
  }

  /** One entry of the alias table: copy column `src` as `dst` when `dst` is absent. */
  function AddAlias(f: Frame, src: string, dst: string): (g: Frame)
    requires f.WellFormed()
    ensures g.WellFormed() && g.height == f.height && |f.columns| <= |g.columns|
  {
    if src in f.columns && dst !in f.columns then
      Frame(f.columns + [dst], f.cells + [ColumnOf(f, src).value], f.height)
    else f
  }

  /** The alias table of `ensure_week_headers`, in its iteration order. */
  const WeekAliases: seq<(string, string)> :=
    [("start", "start_date"), ("startdate", "start_date"), ("end", "end_date"), ("enddate", "end_date")]

  function AddAliases(f: Frame, aliases: seq<(string, string)>): (g: Frame)
    requires f.WellFormed()
    ensures g.WellFormed() && g.height == f.height && |f.columns| <= |g.columns|
  {
    if aliases == [] then f
    else
      var last := aliases[|aliases| - 1];
      AddAlias(AddAliases(f, aliases[..|aliases| - 1]), last.0, last.1)
  }

  function OrElse<T>(a: Option<T>, b: Option<T>): (r: Option<T>) {
    if a.Some? then a else b
  }

  /** One alias step appends at most the column `dst` and moves nothing. */
  lemma AddAliasKeeps(f: Frame, src: string, dst: string)
    requires f.WellFormed()
    ensures var g := AddAlias(f, src, dst);
      && |g.columns| <= |f.columns| + 1
      && g.columns[..|f.columns|] == f.columns
      && g.cells[..|f.cells|] == f.cells
      && (forall i :: |f.columns| <= i < |g.columns| ==> g.columns[i] == dst)
  {
  }

  /** Appending a column leaves every earlier label where it was found. */
  lemma {:induction false} FindAppend(cols: seq<string>, x: string, name: string)
    ensures Find(cols + [x], name) == if name in cols then Find(cols, name) else if name == x then Some(|cols|) else None
  {
    if cols != [] && cols[0] != name {
      FindAppend(cols[1..], x, name);
      assert (cols + [x])[1..] == cols[1..] + [x];
    }
  }

  /** One alias step changes no lookup but `dst`'s, and `dst` falls back to `src`. */
  lemma AddAliasLookup(f: Frame, src: string, dst: string)
    requires f.WellFormed()
    ensures var g := AddAlias(f, src, dst);
      && (forall name :: name != dst ==> ColumnOf(g, name) == ColumnOf(f, name))
      && ColumnOf(g, dst) == OrElse(ColumnOf(f, dst), ColumnOf(f, src))
  {
    var g := AddAlias(f, src, dst);
    if src in f.columns && dst !in f.columns {
      forall name ensures ColumnOf(g, name) == if name == dst then ColumnOf(f, src) else ColumnOf(f, name) {
        FindAppend(f.columns, dst, name);
      }
    }
  }

  /** `ensure_week_headers` spelled out: the four alias steps in dictionary order. */
  lemma WeekAliasSteps(f: Frame)
    requires f.WellFormed()
    ensures AddAliases(f, WeekAliases) ==
      AddAlias(AddAlias(AddAlias(AddAlias(f, "start", "start_date"), "startdate", "start_date"), "end", "end_date"), "enddate", "end_date")
  {
    var w := WeekAliases;
    assert w[..1][..0] == [] && w[..2][..1] == w[..1] && w[..3][..2] == w[..2] && w[..4][..3] == w[..3] && w[..4] == w;
    assert w[..1] == [("start", "start_date")];
    assert AddAliases(f, []) == f;
    var f1 := AddAliases(f, w[..1]);
    assert f1 == AddAlias(f, "start", "start_date");
    var f2 := AddAliases(f, w[..2]);
    assert f2 == AddAlias(f1, "startdate", "start_date");
    var f3 := AddAliases(f, w[..3]);
    assert f3 == AddAlias(f2, "end", "end_date");
    assert AddAliases(f, w[..4]) == AddAlias(f3, "enddate", "end_date");
  }

  lemma PrefixTransitive<T>(a: seq<T>, b: seq<T>, c: seq<T>)
    requires |a| <= |b| <= |c| && c[..|b|] == b && b[..|a|] == a
    ensures c[..|a|] == a
  {
    assert c[..|a|] == c[..|b|][..|a|];
  }

  /** `ensure_week_headers` moves no existing column and adds only `start_date`/`end_date`. */
  lemma WeekHeadersKeep(f: Frame)
    requires f.WellFormed()
    ensures var g := AddAliases(f, WeekAliases);
      && g.columns[..|f.columns|] == f.columns
      && g.cells[..|f.cells|] == f.cells
      && |g.columns| <= |f.columns| + 4
      && (forall i :: |f.columns| <= i < |g.columns| ==> g.columns[i] == "start_date" || g.columns[i] == "end_date")
  {
    WeekAliasSteps(f);
    var f1 := AddAlias(f, "start", "start_date");
    var f2 := AddAlias(f1, "startdate", "start_date");
    var f3 := AddAlias(f2, "end", "end_date");
    var g := AddAlias(f3, "enddate", "end_date");
    AddAliasKeeps(f, "start", "start_date");
    AddAliasKeeps(f1, "startdate", "start_date");
    AddAliasKeeps(f2, "end", "end_date");
    AddAliasKeeps(f3, "enddate", "end_date");
    PrefixTransitive(f.columns, f1.columns, f2.columns);
    PrefixTransitive(f.columns, f2.columns, f3.columns);
    PrefixTransitive(f.columns, f3.columns, g.columns);
    PrefixTransitive(f.cells, f1.cells, f2.cells);
    PrefixTransitive(f.cells, f2.cells, f3.cells);
    PrefixTransitive(f.cells, f3.cells, g.cells);
    forall i | |f.columns| <= i < |g.columns| ensures g.columns[i] == "start_date" || g.columns[i] == "end_date" {
      if i < |f3.columns| {
        assert g.columns[i] == g.columns[..|f3.columns|][i];
        if i < |f2.columns| {
          assert f3.columns[i] == f3.columns[..|f2.columns|][i];
          if i < |f1.columns| {
            assert f2.columns[i] == f2.columns[..|f1.columns|][i];
          }
        }
      }
    }
  }

  /**
    What `ensure_week_headers` does to column lookups: `start_date` is the
    existing `start_date`, else a copy of `start`, else of `startdate`
    (likewise for `end_date`); every other column reads as before.
   */
  lemma WeekHeadersLookup(f: Frame)
    requires f.WellFormed()
    ensures var g := AddAliases(f, WeekAliases);
      && ColumnOf(g, "start_date") == OrElse(ColumnOf(f, "start_date"), OrElse(ColumnOf(f, "start"), ColumnOf(f, "startdate")))
      && ColumnOf(g, "end_date") == OrElse(ColumnOf(f, "end_date"), OrElse(ColumnOf(f, "end"), ColumnOf(f, "enddate")))
      && (forall name :: name != "start_date" && name != "end_date" ==> ColumnOf(g, name) == ColumnOf(f, name))
  {
    WeekAliasSteps(f);
    var f1 := AddAlias(f, "start", "start_date");
    var f2 := AddAlias(f1, "startdate", "start_date");
    var f3 := AddAlias(f2, "end", "end_date");
    AddAliasLookup(f, "start", "start_date");
    AddAliasLookup(f1, "startdate", "start_date");
    AddAliasLookup(f2, "end", "end_date");
    AddAliasLookup(f3, "enddate", "end_date");
  }

  /** The loader's "prize amount" -> "prize_amount" rename, taken only when the target is absent. */
  function PrizeAlias(cols: seq<string>): (r: seq<string>)
    ensures |r| == |cols|
    ensures "prize amount" !in cols || "prize_amount" in cols ==> r == cols
    ensures "prize amount" in cols && "prize_amount" !in cols ==>
      "prize amount" !in r && "prize_amount" in r && forall i :: 0 <= i < |r| && cols[i] != "prize amount" ==> r[i] == cols[i]
  {
    if "prize amount" in cols && "prize_amount" !in cols then Rename(cols, "prize amount", "prize_amount")
    else cols
  }

  /** The cleaned headers never contain "prize amount", so the rename guarded by it never fires. */
  lemma PrizeAliasUnreachable(cols: seq<string>)
    ensures "prize amount" !in NormLabels(cols)
    ensures PrizeAlias(NormLabels(cols)) == NormLabels(cols)
  {
    var p := "prize amount";
    assert ' ' in p by { assert p[5] == ' '; }
    forall i | 0 <= i < |cols| ensures NormLabels(cols)[i] != p {
      NormLabelHasNoSpace(cols[i]);
    }
  }

  /** A spreadsheet export held in memory; the loader rewrites its headers in place. */
  class RawTable {
    var columns: seq<string>
    var cells: seq<seq<Cell>>
    const height: nat

    function Value(): (f: Frame)
      reads this
    {
      Frame(columns, cells, height)
    }

    ghost predicate Valid()
      reads this
    {
      Value().WellFormed()
    }

    constructor (columns: seq<string>, cells: seq<seq<Cell>>, height: nat)
      requires Frame(columns, cells, height).WellFormed()
      ensures Valid() && Value() == Frame(columns, cells, height)
    {
      this.columns := columns;
      this.cells := cells;
      this.height := height;
    }

    /** `norm_cols`: the header list is replaced by its normalised form; no cell changes. */
    method NormCols()
      requires Valid()
      modifies this
      ensures Valid()
      ensures columns == NormLabels(old(columns)) && cells == old(cells)
    {
      columns := NormLabels(columns);
    }

    /** `rename(columns={from: to}, inplace=True)`. */
    method RenameColumn(from: string, to: string)
      requires Valid()
      modifies this
      ensures Valid()
      ensures columns == Rename(old(columns), from, to) && cells == old(cells)
    {
      columns := Rename(columns, from, to);
    }

    /** `ensure_week_headers`: walks the alias table, appending a copied column where one is missing. */
    method EnsureWeekHeaders()
      requires Valid()
      modifies this
      ensures Valid()
      ensures Value() == AddAliases(old(Value()), WeekAliases)
    {
      for k := 0 to |WeekAliases|
        invariant Valid()
        invariant Value() == AddAliases(old(Value()), WeekAliases[..k])
      {
        var (src, dst) := WeekAliases[k];
        assert WeekAliases[..k + 1][..k] == WeekAliases[..k];
        if src in columns && dst !in columns {
          var col := ColumnOf(Value(), src).value;
          columns := columns + [dst];
          cells := cells + [col];
        }
      }
      assert WeekAliases[..|WeekAliases|] == WeekAliases;
    }
  }
}
