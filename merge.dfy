/**
 * The integrated table: one row per rate across every kept announcement,
 * one column per announcement holding the firms (theoretical sequence
 * numbers or bidder names) at that rate.
 */
module Merge {
  import opened Sequences
  import opened Announcement

  /** The firms of `table` at rate `x`, in table order. */
  function FirmsAt(table: seq<Row>, x: real): (fs: seq<string>)
    ensures |fs| <= |table|
    ensures forall f :: f in fs ==> exists i :: 0 <= i < |table| && table[i] == Row(f, x)
    ensures forall i :: 0 <= i < |table| && table[i].rate == x ==> table[i].firm in fs
  {
    if table == [] then []
    else if table[0].rate == x then [table[0].firm] + FirmsAt(table[1..], x)
    else FirmsAt(table[1..], x)
  }

  /** The rates of all tables together, in table order. */
  function RatesOf(tables: seq<seq<Row>>): (rs: seq<real>)
    ensures forall x :: x in rs <==> exists j, i :: 0 <= j < |tables| && 0 <= i < |tables[j]| && tables[j][i].rate == x
  {
    if tables == [] then []
    else
      var t := tables[|tables| - 1];
      var rs := RatesOf(tables[..|tables| - 1]) + seq(|t|, i requires 0 <= i < |t| => t[i].rate);
      assert forall x :: x in rs <==> exists j, i :: 0 <= j < |tables| && 0 <= i < |tables[j]| && tables[j][i].rate == x by {
        forall x ensures x in rs <==> exists j, i :: 0 <= j < |tables| && 0 <= i < |tables[j]| && tables[j][i].rate == x {
          if exists j, i :: 0 <= j < |tables| && 0 <= i < |tables[j]| && tables[j][i].rate == x {
            var j, i :| 0 <= j < |tables| && 0 <= i < |tables[j]| && tables[j][i].rate == x;
            if j < |tables| - 1 {
              assert tables[..|tables| - 1][j] == tables[j];
            } else {
              assert rs[|RatesOf(tables[..|tables| - 1])| + i] == x;
            }
          }
        }
      }
      rs
  }

  // ---------------------------------------------------------------
  // The merge as the code performs it
  // ---------------------------------------------------------------

  /** A row of the code's merged frame: a rate and one cell per merged table (`""` where it has no firm). */
  datatype MergedRow = MergedRow(rate: real, cells: seq<string>)

  /** The rows an outer merge on `rate` makes of one left row: one per matching right row, or one with a blank cell. */
  function Matches(l: MergedRow, table: seq<Row>): (ms: seq<MergedRow>)
    ensures |ms| >= 1
  {
    var fs := FirmsAt(table, l.rate);
    if fs == [] then [MergedRow(l.rate, l.cells + [""])]
    else seq(|fs|, i requires 0 <= i < |fs| => MergedRow(l.rate, l.cells + [fs[i]]))
  }

  /**
   * `pd.merge(merged, table, on="rate", how="outer")` when every rate of
   * `table` is already a rate of `rows`: each left row is paired with
   * every right row of its rate.
   */
  function MergeColumn(rows: seq<MergedRow>, table: seq<Row>): (r: seq<MergedRow>)
    ensures |r| >= |rows|
  {
    if rows == [] then [] else Matches(rows[0], table) + MergeColumn(rows[1..], table)
  }

  /** The code's merged frame: the distinct rates in order, then one outer merge per table. */
  function MergeAsWritten(tables: seq<seq<Row>>): seq<MergedRow> {
    var rates := SortedUnique(RatesOf(tables));
    MergeColumnsAsWritten(seq(|rates|, i requires 0 <= i < |rates| => MergedRow(rates[i], [])), tables)
  }

  function MergeColumnsAsWritten(rows: seq<MergedRow>, tables: seq<seq<Row>>): seq<MergedRow> {
    if tables == [] then rows
    else MergeColumn(MergeColumnsAsWritten(rows, tables[..|tables| - 1]), tables[|tables| - 1])
  }

  /**
   * Two firms of one announcement at a rate another announcement also has
   * make two rows, and the other announcement's firm is shown in both.
   */
  lemma MergeAsWrittenRepeatsFirms()
    ensures MergeAsWritten([[Row("1", 100.0), Row("2", 100.0)], [Row("A", 100.0)]])
         == [MergedRow(100.0, ["1", "A"]), MergedRow(100.0, ["2", "A"])]
  {
    var tables := [[Row("1", 100.0), Row("2", 100.0)], [Row("A", 100.0)]];
    var r0 := [MergedRow(100.0, [])];
    var r1 := [MergedRow(100.0, ["1"]), MergedRow(100.0, ["2"])];
    ExampleStart(tables);
    ExampleFirstColumn(r0, tables[0]);
    ExampleSecondColumn(r1, tables[1]);
  }

  lemma ExampleStart(tables: seq<seq<Row>>)
    requires tables == [[Row("1", 100.0), Row("2", 100.0)], [Row("A", 100.0)]]
    ensures MergeAsWritten(tables) == MergeColumn(MergeColumn([MergedRow(100.0, [])], tables[0]), tables[1])
  {
    var rates := SortedUnique(RatesOf(tables));
    OnlyRate(tables);
    SingleRate(rates);
    var r0 := [MergedRow(100.0, [])];
    assert seq(|rates|, i requires 0 <= i < |rates| => MergedRow(rates[i], [])) == r0;
    assert MergeAsWritten(tables) == MergeColumnsAsWritten(r0, tables);
    assert tables[..1] == [tables[0]];
    assert [tables[0]][..0] == [];
    assert MergeColumnsAsWritten(r0, [tables[0]]) == MergeColumn(r0, tables[0]);
    assert MergeColumnsAsWritten(r0, tables) == MergeColumn(MergeColumnsAsWritten(r0, [tables[0]]), tables[1]);
  }

  lemma ExampleFirstColumn(r0: seq<MergedRow>, t: seq<Row>)
    requires r0 == [MergedRow(100.0, [])] && t == [Row("1", 100.0), Row("2", 100.0)]
    ensures MergeColumn(r0, t) == [MergedRow(100.0, ["1"]), MergedRow(100.0, ["2"])]
  {
    assert FirmsAt(t, 100.0) == ["1", "2"];
    assert r0[0].cells + ["1"] == ["1"] && r0[0].cells + ["2"] == ["2"];
    assert Matches(r0[0], t) == [MergedRow(100.0, ["1"]), MergedRow(100.0, ["2"])];
  }

  lemma ExampleSecondColumn(r1: seq<MergedRow>, t: seq<Row>)
    requires r1 == [MergedRow(100.0, ["1"]), MergedRow(100.0, ["2"])] && t == [Row("A", 100.0)]
    ensures MergeColumn(r1, t) == [MergedRow(100.0, ["1", "A"]), MergedRow(100.0, ["2", "A"])]
  {
    assert FirmsAt(t, 100.0) == ["A"];
    assert r1[0].cells + ["A"] == ["1", "A"] && r1[1].cells + ["A"] == ["2", "A"];
    assert Matches(r1[0], t) == [MergedRow(100.0, ["1", "A"])];
    assert Matches(r1[1], t) == [MergedRow(100.0, ["2", "A"])];
    assert MergeColumn(r1[1..][1..], t) == [];
    assert MergeColumn(r1[1..], t) == [MergedRow(100.0, ["2", "A"])];
  }

  lemma OnlyRate(tables: seq<seq<Row>>)
    requires tables == [[Row("1", 100.0), Row("2", 100.0)], [Row("A", 100.0)]]
    ensures forall x :: x in SortedUnique(RatesOf(tables)) <==> x == 100.0
  {
    assert tables[0][0].rate == 100.0;
  }

  lemma SingleRate(rates: seq<real>)
    requires StrictlyIncreasing(rates)
    requires forall x :: x in rates <==> x == 100.0
    ensures rates == [100.0]
  {
    StrictlyIncreasingUnique(rates, [100.0]);
  }

  // ---------------------------------------------------------------
  // The merge as intended
  // ---------------------------------------------------------------

  /** A row of the integrated table: a rate and, per table, its firms at that rate. */
  datatype RateRow = RateRow(rate: real, cells: seq<seq<string>>)

  /** One row per rate, no columns yet. */
  function Start(rates: seq<real>): (rows: seq<RateRow>)
    ensures |rows| == |rates|
    ensures forall i :: 0 <= i < |rates| ==> rows[i] == RateRow(rates[i], [])
  {
    seq(|rates|, i requires 0 <= i < |rates| => RateRow(rates[i], []))
  }

  /** Add a column holding `table`'s firms at each row's rate. */
  function AddColumn(rows: seq<RateRow>, table: seq<Row>): (r: seq<RateRow>)
    ensures |r| == |rows|
    ensures forall i :: 0 <= i < |rows| ==> r[i] == RateRow(rows[i].rate, rows[i].cells + [FirmsAt(table, rows[i].rate)])
  {
    seq(|rows|, i requires 0 <= i < |rows| => RateRow(rows[i].rate, rows[i].cells + [FirmsAt(table, rows[i].rate)]))
  }

  /** The rows with one column added per table, in order. */
  function AddColumns(rows: seq<RateRow>, tables: seq<seq<Row>>): (r: seq<RateRow>)
    ensures |r| == |rows|
    ensures forall i :: 0 <= i < |rows| ==> r[i].rate == rows[i].rate && |r[i].cells| == |rows[i].cells| + |tables|
    ensures forall i, j :: 0 <= i < |rows| && 0 <= j < |tables| ==> r[i].cells[|rows[i].cells| + j] == FirmsAt(tables[j], rows[i].rate)
    ensures forall i, j :: 0 <= i < |rows| && 0 <= j < |rows[i].cells| ==> r[i].cells[j] == rows[i].cells[j]
  {
    if tables == [] then rows
    else
      var n := |tables| - 1;
      var prev := AddColumns(rows, tables[..n]);
      assert forall j :: 0 <= j < n ==> tables[..n][j] == tables[j];
      AddColumn(prev, tables[n])
  }

  /** The integrated table: one row per distinct rate, one column per table. */
  function MergeTables(tables: seq<seq<Row>>): (rows: seq<RateRow>)
  {
    AddColumns(Start(SortedUnique(RatesOf(tables))), tables)
  }

  /** The rate column of the integrated table. */
  function RateColumn(rows: seq<RateRow>): (rs: seq<real>)
    ensures |rs| == |rows|
    ensures forall i :: 0 <= i < |rows| ==> rs[i] == rows[i].rate
  {
    seq(|rows|, i requires 0 <= i < |rows| => rows[i].rate)
  }

  /** The integrated table built column by column. */
  method Integrate(tables: seq<seq<Row>>) returns (rows: seq<RateRow>)
    ensures rows == MergeTables(tables)
  {
    var start := Start(SortedUnique(RatesOf(tables)));
    rows := start;
    for j := 0 to |tables|
      invariant rows == AddColumns(start, tables[..j])
    {
      assert tables[..j + 1][..j] == tables[..j];
      rows := AddColumn(rows, tables[j]);
    }
    assert tables[..|tables|] == tables;
  }

  /**
   * The integrated table has each rate of any table exactly once, in
   * ascending order, and in column `j` exactly the firms table `j` has at
   * that rate.
   */
  lemma MergeTablesRows(tables: seq<seq<Row>>)
    ensures StrictlyIncreasing(RateColumn(MergeTables(tables)))
    ensures forall x :: x in RateColumn(MergeTables(tables)) <==>
      exists j, k :: 0 <= j < |tables| && 0 <= k < |tables[j]| && tables[j][k].rate == x
    ensures forall i :: 0 <= i < |MergeTables(tables)| ==> |MergeTables(tables)[i].cells| == |tables|
    ensures forall i, j :: 0 <= i < |MergeTables(tables)| && 0 <= j < |tables| ==>
      MergeTables(tables)[i].cells[j] == FirmsAt(tables[j], MergeTables(tables)[i].rate)
  {
    var rates := SortedUnique(RatesOf(tables));
    assert RateColumn(MergeTables(tables)) == rates;
  }

  /** The multiset of the firms of `table` whose rate is in `xs`. */
  function FirmsIn(table: seq<Row>, xs: set<real>): multiset<string> {
    if table == [] then multiset{}
    else (if table[0].rate in xs then multiset{table[0].firm} else multiset{}) + FirmsIn(table[1..], xs)
  }

  lemma {:induction false} FirmsInSplit(table: seq<Row>, x: real, xs: set<real>)
    requires x !in xs
    ensures FirmsIn(table, {x} + xs) == multiset(FirmsAt(table, x)) + FirmsIn(table, xs)
    decreases |table|
  {
    if table != [] {
      FirmsInSplit(table[1..], x, xs);
    }
  }

  lemma {:induction false} FirmsInAll(table: seq<Row>, xs: set<real>)
    requires forall i :: 0 <= i < |table| ==> table[i].rate in xs
    ensures FirmsIn(table, xs) == multiset(seq(|table|, i requires 0 <= i < |table| => table[i].firm))
    decreases |table|
  {
    if table != [] {
      FirmsInAll(table[1..], xs);
      var all := seq(|table|, i requires 0 <= i < |table| => table[i].firm);
      assert all == [table[0].firm] + seq(|table| - 1, i requires 0 <= i < |table| - 1 => table[1..][i].firm);
    }
  }

  /** The concatenation of a column's cells over rows at the rates `rates`. */
  function Column(table: seq<Row>, rates: seq<real>): seq<string> {
    if rates == [] then [] else FirmsAt(table, rates[0]) + Column(table, rates[1..])
  }

  lemma {:induction false} ColumnFirms(table: seq<Row>, rates: seq<real>)
    requires StrictlyIncreasing(rates)
    ensures multiset(Column(table, rates)) == FirmsIn(table, set x | x in rates)
    decreases |rates|
  {
    if rates == [] {
      assert (set x | x in rates) == {};
      FirmsInEmpty(table);
    } else {
      ColumnFirms(table, rates[1..]);
      var rest := set x | x in rates[1..];
      assert rates[0] !in rest;
      assert (set x | x in rates) == {rates[0]} + rest;
      FirmsInSplit(table, rates[0], rest);
    }
  }

  lemma {:induction false} FirmsInEmpty(table: seq<Row>)
    ensures FirmsIn(table, {}) == multiset{}
    decreases |table|
  {
    if table != [] {
      FirmsInEmpty(table[1..]);
    }
  }

  /**
   * Reading column `j` of the integrated table top to bottom gives the
   * firms of table `j`, each as often as the table has it.
   */
  lemma MergeKeepsEveryFirm(tables: seq<seq<Row>>, j: nat)
    requires j < |tables|
    ensures multiset(Column(tables[j], RateColumn(MergeTables(tables))))
         == multiset(seq(|tables[j]|, k requires 0 <= k < |tables[j]| => tables[j][k].firm))
  {
    var rates := RateColumn(MergeTables(tables));
    MergeTablesRows(tables);
    ColumnFirms(tables[j], rates);
    var xs := set x | x in rates;
    forall k | 0 <= k < |tables[j]| ensures tables[j][k].rate in xs {
      assert tables[j][k].rate in rates;
    }
    FirmsInAll(tables[j], xs);
  }

  // ---------------------------------------------------------------
  // Where the two agree
  // ---------------------------------------------------------------

  /** An integrated row as the code shows it when each cell holds at most one firm. */
  function Render(r: RateRow): MergedRow {
    MergedRow(r.rate, seq(|r.cells|, j requires 0 <= j < |r.cells| => if r.cells[j] == [] then "" else r.cells[j][0]))
  }

  function RenderAll(rows: seq<RateRow>): (r: seq<MergedRow>)
    ensures |r| == |rows|
    ensures forall i :: 0 <= i < |rows| ==> r[i] == Render(rows[i])
  {
    seq(|rows|, i requires 0 <= i < |rows| => Render(rows[i]))
  }

  predicate DistinctRates(table: seq<Row>) {
    forall i, j :: 0 <= i < j < |table| ==> table[i].rate != table[j].rate
  }

  lemma {:induction false} FirmsAtAbsent(table: seq<Row>, x: real)
    requires forall i :: 0 <= i < |table| ==> table[i].rate != x
    ensures FirmsAt(table, x) == []
    decreases |table|
  {
    if table != [] {
      FirmsAtAbsent(table[1..], x);
    }
  }

  lemma {:induction false} FirmsAtDistinct(table: seq<Row>, x: real)
    requires DistinctRates(table)
    ensures |FirmsAt(table, x)| <= 1
    decreases |table|
  {
    if table != [] {
      FirmsAtDistinct(table[1..], x);
      if table[0].rate == x {
        FirmsAtAbsent(table[1..], x);
      }
    }
  }

  lemma {:induction false} MergeColumnRenders(rows: seq<RateRow>, table: seq<Row>)
    requires DistinctRates(table)
    ensures MergeColumn(RenderAll(rows), table) == RenderAll(AddColumn(rows, table))
    decreases |rows|
  {
    if rows != [] {
      MergeColumnRenders(rows[1..], table);
      assert RenderAll(rows)[1..] == RenderAll(rows[1..]);
      assert AddColumn(rows, table)[1..] == AddColumn(rows[1..], table);
      FirmsAtDistinct(table, rows[0].rate);
      var r := rows[0];
      var fs := FirmsAt(table, r.rate);
      var added := RateRow(r.rate, r.cells + [fs]);
      var cell := if fs == [] then "" else fs[0];
      assert Render(added).cells == Render(r).cells + [cell];
      assert Matches(Render(r), table) == [Render(added)];
    }
  }

  lemma {:induction false} MergeColumnsRender(rows: seq<RateRow>, tables: seq<seq<Row>>)
    requires forall j :: 0 <= j < |tables| ==> DistinctRates(tables[j])
    ensures MergeColumnsAsWritten(RenderAll(rows), tables) == RenderAll(AddColumns(rows, tables))
    decreases |tables|
  {
    if tables != [] {
      var n := |tables| - 1;
      MergeColumnsRender(rows, tables[..n]);
      MergeColumnRenders(AddColumns(rows, tables[..n]), tables[n]);
    }
  }

  /** When no table has a rate twice, the code's merged frame is the integrated table with one firm per cell. */
  lemma MergeAgreesOnDistinctRates(tables: seq<seq<Row>>)
    requires forall j :: 0 <= j < |tables| ==> DistinctRates(tables[j])
    ensures MergeAsWritten(tables) == RenderAll(MergeTables(tables))
  {
    var rates := SortedUnique(RatesOf(tables));
    assert seq(|rates|, i requires 0 <= i < |rates| => MergedRow(rates[i], [])) == RenderAll(Start(rates));
    MergeColumnsRender(Start(rates), tables);
  }
}
