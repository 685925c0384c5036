/**
 * The batch run (`process_analysis`): analyse every announcement entered,
 * keep those of the chosen officer, merge their tables, find the officer's
 * hot zone and the blue-ocean bin inside it.
 */
module Batch {
  import opened Wrappers
  import opened Text
  import opened Input
  import opened Sequences
  import opened Theoretical
  import opened Announcement
  import opened HotZone
  import opened BlueOcean
  import Merge
  import Rounding

  /** Width and step of the hot-zone windows, and the blue-ocean bin width, in percentage points. */
  const HotWindow: real := 0.3
  const HotStep: real := 0.05
  const BinWidth: real := 0.0005

  /** One line of the run's log. */
  datatype LogEntry =
    | Failed(entry: string, why: Failure)
    | Excluded(entry: string, officer: string)
    | Accepted(entry: string, officer: string, winner: string, rate: real, filtered: bool)
    | NoValidData

  /** A column of the integrated table: announcement number, officer and winner (the header) and the winner's rate (the row under it). */
  datatype Column = Column(number: string, officer: string, winner: string, winRate: real)

  /** A kept announcement with a non-empty combined table. */
  datatype Included = Included(column: Column, table: seq<Row>)

  /** What the run gathers announcement by announcement. */
  datatype Pools = Pools(logs: seq<LogEntry>, included: seq<Included>, winnerRates: seq<real>, theoRates: seq<real>, bidderRates: seq<real>)

  /** The summary figures: announcements entered, merged, not merged, the blue-ocean bin and the recommended rate. */
  datatype Stats = Stats(total: nat, filtered: nat, missing: nat, blueRange: Option<(real, real)>, recRate: Option<real>)

  /**
   * How a run ends: no input, no service key, nothing to merge, a crash
   * because no kept winner has a non-zero rate, or a report.
   */
  datatype Outcome =
    | NoInput
    | NoServiceKey
    | NoData(logs: seq<LogEntry>, stats: Stats)
    | WinnerPoolEmpty(logs: seq<LogEntry>)
    | Report(logs: seq<LogEntry>, columns: seq<Column>, merged: seq<Merge.RateRow>, winnerRates: seq<real>,
             hot: Zone, blue: Option<Blue>, stats: Stats)

  /** The officer filter: with a non-blank target only that officer's announcements are kept. */
  predicate Keeps(target: string, officer: string) {
    target == "" || Strip(officer) == target
  }

  /** The column an analysis heads in the integrated table. */
  function ColumnOf(an: Analysis): Column {
    Column(an.number, an.info.officer, an.info.winner, an.info.rate)
  }

  /** The table a kept analysis contributes: its combined table, unless that is empty. */
  function IncludedOf(an: Analysis): seq<Included> {
    if an.table != [] then [Included(ColumnOf(an), an.table)] else []
  }

  /** The winner rate a kept analysis contributes: its own, unless that is zero. */
  function WinnerOf(an: Analysis): seq<real> {
    if an.info.rate != 0.0 then [an.info.rate] else []
  }

  /**
   * One announcement's contribution to the pools, given its analysis: a
   * failed or excluded announcement adds its log line and nothing else; a
   * kept one also adds its table when not empty, its winner rate when not
   * zero, and all of its theoretical and bid rates.
   */
  function Step(p: Pools, target: string, entry: string, res: Result<Analysis, Failure>): (q: Pools)
    ensures |q.logs| == |p.logs| + 1
    ensures |q.included| <= |p.included| + 1
    ensures (forall x :: x in p.winnerRates ==> x != 0.0) ==> forall x :: x in q.winnerRates ==> x != 0.0
    ensures (forall c :: c in p.included ==> c.table != [] && Keeps(target, c.column.officer)) ==>
      forall c :: c in q.included ==> c.table != [] && Keeps(target, c.column.officer)
    ensures res.Err? ==> q == p.(logs := p.logs + [Failed(entry, res.error)])
    ensures res.Ok? && !Keeps(target, res.value.info.officer) ==>
      q == p.(logs := p.logs + [Excluded(entry, Strip(res.value.info.officer))])
    ensures res.Ok? && Keeps(target, res.value.info.officer) ==>
      && q.logs == p.logs + [Accepted(entry, Strip(res.value.info.officer), res.value.info.winner, res.value.info.rate, target != "")]
      && q.included == p.included + IncludedOf(res.value)
      && q.winnerRates == p.winnerRates + WinnerOf(res.value)
      && q.theoRates == p.theoRates + RatesOf(res.value.theo)
      && q.bidderRates == p.bidderRates + res.value.bidderRates
  {
    match res
    case Err(why) => p.(logs := p.logs + [Failed(entry, why)])
    case Ok(an) =>
      var officer := Strip(an.info.officer);
      if !Keeps(target, an.info.officer) then p.(logs := p.logs + [Excluded(entry, officer)])
      else
        Pools(p.logs + [Accepted(entry, officer, an.info.winner, an.info.rate, target != "")],
              p.included + IncludedOf(an),
              p.winnerRates + WinnerOf(an),
              p.theoRates + RatesOf(an.theo),
              p.bidderRates + an.bidderRates)
  }

  /** The analysis of one entered announcement, on the replies for its identifier. */
  function AnalyzeEntry(entry: string, fetch: Identifier -> Replies): Result<Analysis, Failure> {
    Analyze(entry, fetch(ParseIdentifier(entry)))
  }

  /**
   * The pools after the announcements `entries`: one log line each, at
   * most one included table each, every included table non-empty and of
   * the target officer, and only non-zero winner rates.
   */
  function Collect(entries: seq<string>, target: string, fetch: Identifier -> Replies): (p: Pools)
    ensures |p.logs| == |entries|
    ensures |p.included| <= |entries|
    ensures forall x :: x in p.winnerRates ==> x != 0.0
    ensures forall c :: c in p.included ==> c.table != [] && Keeps(target, c.column.officer)
  {
    if entries == [] then Pools([], [], [], [], [])
    else
      var n := |entries| - 1;
      Step(Collect(entries[..n], target, fetch), target, entries[n], AnalyzeEntry(entries[n], fetch))
  }

  /** The analyses of the entries that succeed and are the target officer's, in entry order. */
  function Kept(entries: seq<string>, target: string, fetch: Identifier -> Replies): (ans: seq<Analysis>)
    ensures |ans| <= |entries|
    ensures forall an :: an in ans ==> Keeps(target, an.info.officer)
  {
    if entries == [] then []
    else
      var n := |entries| - 1;
      var res := AnalyzeEntry(entries[n], fetch);
      Kept(entries[..n], target, fetch) + (if res.Ok? && Keeps(target, res.value.info.officer) then [res.value] else [])
  }

  /** The tables of the analyses, the empty ones left out, one after another. */
  function IncludedPool(ans: seq<Analysis>): seq<Included> {
    if ans == [] then [] else IncludedPool(ans[..|ans| - 1]) + IncludedOf(ans[|ans| - 1])
  }

  /** The non-zero winner rates of the analyses, in order. */
  function WinnerPool(ans: seq<Analysis>): seq<real> {
    if ans == [] then [] else WinnerPool(ans[..|ans| - 1]) + WinnerOf(ans[|ans| - 1])
  }

  /** All theoretical rates of the analyses, one after another. */
  function TheoPool(ans: seq<Analysis>): seq<real> {
    if ans == [] then [] else TheoPool(ans[..|ans| - 1]) + RatesOf(ans[|ans| - 1].theo)
  }

  /** All bid rates of the analyses, one after another. */
  function BidderPool(ans: seq<Analysis>): seq<real> {
    if ans == [] then [] else BidderPool(ans[..|ans| - 1]) + ans[|ans| - 1].bidderRates
  }

  /**
   * The pools that feed the merge, the hot zone and the blue-ocean search
   * hold exactly what the kept announcements bring, in entry order; failed
   * and excluded announcements bring nothing.
   */
  lemma {:induction false} CollectKept(entries: seq<string>, target: string, fetch: Identifier -> Replies)
    ensures
      var p := Collect(entries, target, fetch);
      var ans := Kept(entries, target, fetch);
      && p.included == IncludedPool(ans)
      && p.winnerRates == WinnerPool(ans)
      && p.theoRates == TheoPool(ans)
      && p.bidderRates == BidderPool(ans)
    decreases |entries|
  {
    if entries != [] {
      var n := |entries| - 1;
      CollectKept(entries[..n], target, fetch);
      var res := AnalyzeEntry(entries[n], fetch);
      var before := Kept(entries[..n], target, fetch);
      if res.Ok? && Keeps(target, res.value.info.officer) {
        var ans := before + [res.value];
        assert ans[..|ans| - 1] == before;
      } else {
        assert Kept(entries, target, fetch) == before;
      }
    }
  }

  function TablesOf(included: seq<Included>): (ts: seq<seq<Row>>)
    ensures |ts| == |included|
    ensures forall i :: 0 <= i < |included| ==> ts[i] == included[i].table
  {
    seq(|included|, i requires 0 <= i < |included| => included[i].table)
  }

  function ColumnsOf(included: seq<Included>): (cs: seq<Column>)
    ensures |cs| == |included|
    ensures forall i :: 0 <= i < |included| ==> cs[i] == included[i].column
  {
    seq(|included|, i requires 0 <= i < |included| => included[i].column)
  }

  /** The blue-ocean bin's bounds and the recommended rate, its upper bound rounded to 4 places. */
  function BlueStats(total: nat, filtered: nat, blue: Option<Blue>): Stats
    requires filtered <= total
  {
    match blue
    case None => Stats(total, filtered, total - filtered, None, None)
    case Some(b) => Stats(total, filtered, total - filtered, Some((b.bestStart, b.bestEnd)), Some(Rounding.Round(b.bestEnd, 4)))
  }

  /** The whole run as a function of the officer, the input text, whether a service key is set, and the replies per announcement. */
  function Process(target: string, input: string, hasKey: bool, fetch: Identifier -> Replies): (out: Outcome)
    ensures out.NoData? ==> out.stats.filtered == 0 && out.stats.missing == out.stats.total
    ensures out.Report? ==> out.stats.filtered + out.stats.missing == out.stats.total && |out.columns| == out.stats.filtered > 0
  {
    if Strip(input) == "" then NoInput
    else if !hasKey then NoServiceKey
    else
      var entries := Entries(input);
      var p := Collect(entries, Strip(target), fetch);
      if p.included == [] then NoData(p.logs + [NoValidData], Stats(|entries|, 0, |entries|, None, None))
      else
        var hot := HotZoneOf(p.winnerRates, HotWindow, HotStep);
        if hot.NoHotZone? then WinnerPoolEmpty(p.logs)
        else ReportOn(p, |entries|, hot)
  }

  /** The report on the pooled announcements out of `total` entries, with the hot zone found. */
  function ReportOn(p: Pools, total: nat, hot: Zone): (out: Outcome)
    requires 0 < |p.included| <= total && hot.HotZone?
    ensures out.Report? && out.stats.total == total && out.stats.filtered == |out.columns| == |p.included|
    ensures out.stats.filtered + out.stats.missing == total
  {
    var blue := BlueOceanOf(p.theoRates, p.bidderRates, Some(hot.start), Some(hot.end), BinWidth);
    Report(p.logs, ColumnsOf(p.included), Merge.MergeTables(TablesOf(p.included)), p.winnerRates, hot, blue,
           BlueStats(total, |p.included|, blue))
  }

  /**
   * A report's hot zone is the first fullest window over the pooled winner
   * rates, those rates are non-zero, its rate column ascends strictly, and
   * every merged column belongs to the chosen officer.
   */
  lemma ReportFacts(target: string, input: string, hasKey: bool, fetch: Identifier -> Replies)
    requires Process(target, input, hasKey, fetch).Report?
    ensures
      var out := Process(target, input, hasKey, fetch);
      && out.winnerRates != []
      && IsHotZone(out.winnerRates, HotWindow, HotStep, out.hot)
      && (forall x :: x in out.winnerRates ==> x != 0.0)
      && StrictlyIncreasing(Merge.RateColumn(out.merged))
      && (forall c :: c in out.columns ==> Keeps(Strip(target), c.officer))
  {
    var out := Process(target, input, hasKey, fetch);
    var p := Collect(Entries(input), Strip(target), fetch);
    HotZoneIsFirstFullest(p.winnerRates, HotWindow, HotStep, out.hot);
    Merge.MergeTablesRows(TablesOf(p.included));
    forall c | c in out.columns ensures Keeps(Strip(target), c.officer) {
      var i :| 0 <= i < |out.columns| && out.columns[i] == c;
      assert p.included[i] in p.included;
    }
  }

  /**
   * A report shows a blue-ocean range exactly when one was found: the best
   * bin's two edges, and as recommended rate its upper edge rounded to 4
   * places, which is within `0.00005` of that edge.
   */
  lemma RecommendedRate(target: string, input: string, hasKey: bool, fetch: Identifier -> Replies)
    requires Process(target, input, hasKey, fetch).Report?
    ensures
      var out := Process(target, input, hasKey, fetch);
      && (out.stats.recRate.Some? <==> out.blue.Some?)
      && (out.stats.blueRange.Some? <==> out.blue.Some?)
      && (out.blue.Some? ==>
            && out.stats.blueRange == Some((out.blue.value.bestStart, out.blue.value.bestEnd))
            && out.stats.recRate == Some(Rounding.Round(out.blue.value.bestEnd, 4))
            && -0.00005 <= out.stats.recRate.value - out.blue.value.bestEnd <= 0.00005)
  {
    var out := Process(target, input, hasKey, fetch);
    if out.blue.Some? {
      Rounding.RoundError4(out.blue.value.bestEnd);
    }
  }

  /** Entries that are all failed or excluded include nothing. */
  lemma {:induction false} CollectNoneKept(entries: seq<string>, target: string, fetch: Identifier -> Replies)
    requires forall e :: e in entries && AnalyzeEntry(e, fetch).Ok? ==> !Keeps(target, AnalyzeEntry(e, fetch).value.info.officer)
    ensures Collect(entries, target, fetch).included == []
    decreases |entries|
  {
    if entries != [] {
      var n := |entries| - 1;
      assert forall e :: e in entries[..n] ==> e in entries;
      CollectNoneKept(entries[..n], target, fetch);
    }
  }

  /** When no announcement analysed is the chosen officer's, the run reports that there is no data. */
  lemma NoMatchingOfficer(target: string, input: string, hasKey: bool, fetch: Identifier -> Replies)
    requires Strip(input) != "" && hasKey
    requires forall e :: e in Entries(input) && AnalyzeEntry(e, fetch).Ok? ==>
      !Keeps(Strip(target), AnalyzeEntry(e, fetch).value.info.officer)
    ensures Process(target, input, hasKey, fetch).NoData?
  {
    CollectNoneKept(Entries(input), Strip(target), fetch);
  }

  /** The announcement `e` is failed, excluded, or has a zero winner rate. */
  predicate ZeroWinner(e: string, target: string, fetch: Identifier -> Replies) {
    (AnalyzeEntry(e, fetch).Ok? && Keeps(target, AnalyzeEntry(e, fetch).value.info.officer))
      ==> AnalyzeEntry(e, fetch).value.info.rate == 0.0
  }

  /** A step pools a winner rate exactly when the announcement is kept and its rate is not zero. */
  lemma StepWinnerRates(p: Pools, target: string, entry: string, res: Result<Analysis, Failure>)
    ensures Step(p, target, entry, res).winnerRates == p.winnerRates <==>
      !(res.Ok? && Keeps(target, res.value.info.officer) && res.value.info.rate != 0.0)
    ensures Step(p, target, entry, res).winnerRates == [] <==>
      p.winnerRates == [] && (res.Ok? && Keeps(target, res.value.info.officer) ==> res.value.info.rate == 0.0)
  {
    var q := Step(p, target, entry, res);
    if res.Ok? && Keeps(target, res.value.info.officer) && res.value.info.rate != 0.0 {
      assert |q.winnerRates| == |p.winnerRates| + 1;
    }
  }

  /** Every announcement of `entries` is failed, excluded, or has a zero winner rate. */
  predicate AllZeroWinners(entries: seq<string>, target: string, fetch: Identifier -> Replies) {
    entries == [] || (AllZeroWinners(entries[..|entries| - 1], target, fetch) && ZeroWinner(entries[|entries| - 1], target, fetch))
  }

  /** The winner-rate pool is empty only when every kept announcement's winner rate is zero. */
  lemma {:induction false} CollectWinnerRates(entries: seq<string>, target: string, fetch: Identifier -> Replies)
    ensures Collect(entries, target, fetch).winnerRates == [] <==> AllZeroWinners(entries, target, fetch)
    decreases |entries|
  {
    if entries != [] {
      var n := |entries| - 1;
      CollectWinnerRates(entries[..n], target, fetch);
      StepWinnerRates(Collect(entries[..n], target, fetch), target, entries[n], AnalyzeEntry(entries[n], fetch));
    }
  }

  /** The run crashes on an empty winner pool exactly when something is merged but every kept winner rate is zero. */
  lemma WinnerPoolEmptyWhen(target: string, input: string, hasKey: bool, fetch: Identifier -> Replies)
    requires Strip(input) != "" && hasKey
    ensures Process(target, input, hasKey, fetch).WinnerPoolEmpty? <==>
      (Collect(Entries(input), Strip(target), fetch).included != []
       && AllZeroWinners(Entries(input), Strip(target), fetch))
  {
    CollectWinnerRates(Entries(input), Strip(target), fetch);
  }

  /** The officer reported by an analysis is already stripped, so the filter compares it as is. */
  lemma KeepsOfficer(target: string, an: Analysis, input: string, r: Replies)
    requires Analyze(input, r) == Ok(an)
    ensures Keeps(target, an.info.officer) <==> target == "" || an.info.officer == target
  {
    StripOfStripped(an.info.officer);
  }

  /** The loop over the entered announcements. */
  method CollectPools(entries: seq<string>, targetClean: string, fetch: Identifier -> Replies) returns (p: Pools)
    ensures p == Collect(entries, targetClean, fetch)
  {
    var logs: seq<LogEntry> := [];
    var included: seq<Included> := [];
    var winnerRates: seq<real> := [];
    var theoRates: seq<real> := [];
    var bidderRates: seq<real> := [];
    for i := 0 to |entries|
      invariant Pools(logs, included, winnerRates, theoRates, bidderRates) == Collect(entries[..i], targetClean, fetch)
    {
      assert entries[..i + 1][..i] == entries[..i];
      var entry := entries[i];
      var res := AnalyzeEntry(entry, fetch);
      if res.Err? {
        logs := logs + [Failed(entry, res.error)];
        continue;
      }
      var an := res.value;
      var officer := Strip(an.info.officer);
      if targetClean != "" && officer != targetClean {
        logs := logs + [Excluded(entry, officer)];
        continue;
      }
      logs := logs + [Accepted(entry, officer, an.info.winner, an.info.rate, targetClean != "")];
      if an.table != [] {
        included := included + [Included(ColumnOf(an), an.table)];
      }
      if an.info.rate != 0.0 {
        winnerRates := winnerRates + [an.info.rate];
      }
      theoRates := theoRates + RatesOf(an.theo);
      bidderRates := bidderRates + an.bidderRates;
    }
    assert entries[..|entries|] == entries;
    p := Pools(logs, included, winnerRates, theoRates, bidderRates);
  }

  /** `process_analysis`, step by step. */
  method ProcessAnalysis(target: string, input: string, hasKey: bool, fetch: Identifier -> Replies) returns (out: Outcome)
    ensures out == Process(target, input, hasKey, fetch)
  {
    if Strip(input) == "" {
      return NoInput;
    }
    if !hasKey {
      return NoServiceKey;
    }
    var entries := Entries(input);
    var p := CollectPools(entries, Strip(target), fetch);
    if p.included == [] {
      return NoData(p.logs + [NoValidData], Stats(|entries|, 0, |entries|, None, None));
    }
    var merged := Merge.Integrate(TablesOf(p.included));
    var hot := FindHotZone(p.winnerRates, HotWindow, HotStep);
    if hot.NoHotZone? {
      return WinnerPoolEmpty(p.logs);
    }
    var blue := FindBlueOcean(p.theoRates, p.bidderRates, Some(hot.start), Some(hot.end), BinWidth);
    out := Report(p.logs, ColumnsOf(p.included), merged, p.winnerRates, hot, blue, BlueStats(|entries|, |p.included|, blue));
  }
}
