/**
 * The analysis of one announcement: its theoretical rate set, the rates of
 * its actual bids, the winner, and the combined table of both.
 */
module Announcement {
  import opened Wrappers
  import opened Text
  import opened Json
  import opened Envelope
  import opened Input
  import opened Sequences
  import opened Theoretical
  import opened Reconstruct
  import opened Lookups
  import Rounding

  /**
   * The replies one announcement's analysis reads: officer, preliminary
   * estimates, lower-limit rate, A value and opening results.
   */
  datatype Replies = Replies(officer: Reply, estimates: Reply, threshold: Reply, costs: Reply, bids: Reply)

  /** Why an analysis failed: the opening results could not be fetched, or an exception escaped. */
  datatype Failure = HttpError | Exception

  /** The winner's name, its rate rounded to 5 places, and the officer. */
  datatype Info = Info(winner: string, rate: real, officer: string)

  /** The winner shown when there are no usable opening results. */
  const NoResults: string := "개찰결과 없음"

  /** A row of the combined table: a label (`업체명`) and a rate. */
  datatype Row = Row(firm: string, rate: real)

  /** What an announcement contributes: its number, combined table, winner info, theoretical rates and every bid's rate. */
  datatype Analysis = Analysis(number: string, table: seq<Row>, info: Info, theo: seq<TheoRate>, bidderRates: seq<real>)

  function RowRate(r: Row): real {
    r.rate
  }

  /** `str()` of a bidder-name cell; a cell the row lacks is NaN, written `nan`. */
  function NameText(name: Option<Json>): string {
    match name
    case None => "nan"
    case Some(j) => PyStr(j)
  }

  /** A bidder-name cell as the merged table shows it: text as is, a missing or null cell blank. */
  function LabelText(name: Option<Json>): string {
    match name
    case None => ""
    case Some(JNull) => ""
    case Some(j) => PyStr(j)
  }

  /** The theoretical rates labelled with their sequence numbers as text. */
  function TheoRows(theo: seq<TheoRate>): (rows: seq<Row>)
    ensures |rows| == |theo|
    ensures forall i :: 0 <= i < |theo| ==> rows[i] == Row(IntText(theo[i].seqNo), theo[i].rate)
  {
    seq(|theo|, i requires 0 <= i < |theo| => Row(IntText(theo[i].seqNo), theo[i].rate))
  }

  /** The display set's bids as rows. */
  function BidRowsOf(d: seq<RatedBid>): (rows: seq<Row>)
    ensures |rows| == |d|
    ensures forall i :: 0 <= i < |d| ==> rows[i] == Row(LabelText(d[i].name), d[i].rate)
  {
    seq(|d|, i requires 0 <= i < |d| => Row(LabelText(d[i].name), d[i].rate))
  }

  function RoundRow(r: Row): Row {
    Row(r.firm, Rounding.Round(r.rate, 5))
  }

  function RoundRows(rows: seq<Row>): (r: seq<Row>)
    ensures |r| == |rows|
    ensures forall i :: 0 <= i < |rows| ==> r[i] == RoundRow(rows[i])
  {
    seq(|rows|, i requires 0 <= i < |rows| => RoundRow(rows[i]))
  }

  lemma RoundRowsAppend(a: seq<Row>, b: seq<Row>)
    ensures RoundRows(a + b) == RoundRows(a) + RoundRows(b)
  {
  }

  /** Rounding every row of two rearrangements of the same rows gives rearrangements of the same rounded rows. */
  lemma {:induction false} RoundRowsPermutation(a: seq<Row>, b: seq<Row>)
    requires multiset(a) == multiset(b)
    ensures multiset(RoundRows(a)) == multiset(RoundRows(b))
    decreases |a|
  {
    if a != [] {
      var x := a[0];
      assert x in multiset(b);
      var j :| 0 <= j < |b| && b[j] == x;
      var rest := b[..j] + b[j + 1..];
      assert b == b[..j] + [x] + b[j + 1..];
      assert a == [x] + a[1..];
      assert multiset(b) == multiset(rest) + multiset{x} by {
        assert multiset(b) == multiset(b[..j]) + multiset{x} + multiset(b[j + 1..]);
      }
      assert multiset(rest) == multiset(b[..j]) + multiset(b[j + 1..]);
      assert multiset(a) == multiset(a[1..]) + multiset{x};
      assert multiset(a[1..]) == multiset(a) - multiset{x};
      assert multiset(rest) == multiset(b) - multiset{x};
      RoundRowsPermutation(a[1..], rest);
      RoundRowsAppend([x], a[1..]);
      RoundRowsAppend(b[..j] + [x], b[j + 1..]);
      RoundRowsAppend(b[..j], [x]);
      RoundRowsAppend(b[..j], b[j + 1..]);
    }
  }

  /** Sort by rate, then round every rate to 5 places. */
  function Finish(rows: seq<Row>): (r: seq<Row>)
    ensures |r| == |rows|
    ensures SortedBy(r, RowRate)
    ensures multiset(r) == multiset(RoundRows(rows))
  {
    var sorted := SortBy(rows, RowRate);
    RoundRowsPermutation(sorted, rows);
    var r := RoundRows(sorted);
    forall i, j | 0 <= i < j < |r| ensures RowRate(r[i]) <= RowRate(r[j]) {
      Rounding.RoundMonotone(sorted[i].rate, sorted[j].rate);
    }
    r
  }

  /**
   * The combined table as the code builds it. `rateFrame` says whether
   * `df_rates` is non-empty; when it is and there is no bid table (no
   * usable opening results), selecting the bid table's `업체명` and `rate`
   * columns from a frame without columns raises.
   */
  function CombineAsWritten(theo: seq<TheoRate>, rateFrame: bool, display: Option<seq<Row>>): (r: Result<seq<Row>, Failure>)
  {
    if rateFrame then
      if display.None? then Err(Exception)
      else Ok(Finish(TheoRows(theo) + display.value))
    else Ok(Finish(display.GetOr([])))
  }

  /**
   * The combined table: the theoretical rates labelled by sequence number
   * and the displayed bids, in ascending order of rate, rates rounded to
   * 5 places; the theoretical rates alone when there is no bid table.
   */
  function Combine(theo: seq<TheoRate>, display: Option<seq<Row>>): (table: seq<Row>)
    ensures |table| == |theo| + |display.GetOr([])|
    ensures SortedBy(table, RowRate)
    ensures multiset(table) == multiset(RoundRows(TheoRows(theo) + display.GetOr([])))
  {
    Finish(TheoRows(theo) + display.GetOr([]))
  }

  /**
   * The code fails exactly when `df_rates` is non-empty and there is no bid
   * table; otherwise it agrees with `Combine`, given that numeric
   * theoretical rates only come with a non-empty `df_rates`.
   */
  lemma CombineAsWrittenFails(theo: seq<TheoRate>, rateFrame: bool, display: Option<seq<Row>>)
    requires theo != [] ==> rateFrame
    ensures CombineAsWritten(theo, rateFrame, display).Err? <==> rateFrame && display.None?
    ensures CombineAsWritten(theo, rateFrame, display).Ok? ==> CombineAsWritten(theo, rateFrame, display).value == Combine(theo, display)
  {
    if theo == [] {
      assert TheoRows(theo) + display.GetOr([]) == display.GetOr([]);
    }
  }

  /**
   * An announcement with four preliminary estimates and no opening results
   * loses its single theoretical rate in the code, and keeps it in `Combine`.
   */
  lemma CombineKeepsTheoreticalRates(x: real)
    ensures CombineAsWritten([TheoRate(1, x)], true, None) == Err(Exception)
    ensures Combine([TheoRate(1, x)], None) == [Row("1", Rounding.Round(x, 5))]
  {
    var rows := TheoRows([TheoRate(1, x)]);
    assert rows == [Row("1", x)];
    assert rows + [] == rows;
    var t := Combine([TheoRate(1, x)], None);
    assert |t| == 1;
    assert multiset(t) == multiset{Row("1", Rounding.Round(x, 5))};
    assert t[0] in multiset(t);
  }

  /** The bid side of an analysis: winner, its rounded rate, every bid's rate, and the bid table (`None`: a frame without columns). */
  datatype BidSide = BidSide(winner: string, winRate: real, bidderRates: seq<real>, display: Option<seq<Row>>)

  /**
   * The opening results turned into the winner, the rate of every bid and
   * the displayed bids; an exception when bids exist but no item carries a
   * bidder name.
   */
  function BidSection(items: seq<Json>, a: real, sucs: real, base: real): (r: Result<BidSide, Failure>)
    ensures r.Ok? && r.value.display.None? ==> r.value == BidSide(NoResults, 0.0, [], None)
    ensures r.Ok? && r.value.display.Some? ==>
      var rows := r.value.display.value;
      && (forall i, j :: 0 <= i < j < |rows| ==> rows[i].rate != rows[j].rate)
      && (forall i :: 0 <= i < |rows| ==> InBand(rows[i].rate) && rows[i].rate in r.value.bidderRates)
      && (forall x :: x in r.value.bidderRates && InBand(x) ==> exists i :: 0 <= i < |rows| && rows[i].rate == x)
  {
    match DecodeBids(items)
    case NoAmountColumn => Ok(BidSide(NoResults, 0.0, [], None))
    case BidRows(bids, hasName) =>
      if bids == [] then Ok(BidSide(NoResults, 0.0, [], None))
      else
        var rated := RateBids(bids, a, sucs, base);
        var winner := NameText(bids[0].name);
        var winRate := Rounding.Round(rated[0].rate, 5);
        var rates := BidderRates(rated);
        if !hasName then Err(Exception)
        else
          var rows := BidRowsOf(DisplaySet(rated));
          DisplayRowsFromRates(rated);
          DisplayRowsComplete(rated);
          Ok(BidSide(winner, winRate, rates, Some(rows)))
  }

  /** Every displayed rate is the rate of some bid. */
  lemma DisplayRowsFromRates(rated: seq<RatedBid>)
    ensures forall i :: 0 <= i < |BidRowsOf(DisplaySet(rated))| ==> BidRowsOf(DisplaySet(rated))[i].rate in BidderRates(rated)
  {
    var d := DisplaySet(rated);
    var rows := BidRowsOf(d);
    var rates := BidderRates(rated);
    forall i | 0 <= i < |rows| ensures rows[i].rate in rates {
      var n :| 0 <= n < |rated| && rated[n] == d[i];
      assert rates[n] == rows[i].rate;
    }
  }

  /** Every in-band bid rate is displayed. */
  lemma DisplayRowsComplete(rated: seq<RatedBid>)
    ensures forall x :: x in BidderRates(rated) && InBand(x) ==>
      exists i :: 0 <= i < |BidRowsOf(DisplaySet(rated))| && BidRowsOf(DisplaySet(rated))[i].rate == x
  {
    var d := DisplaySet(rated);
    var rows := BidRowsOf(d);
    var rates := BidderRates(rated);
    forall x | x in rates && InBand(x) ensures exists i :: 0 <= i < |rows| && rows[i].rate == x {
      var n :| 0 <= n < |rates| && rates[n] == x;
      assert rated[n] in rated && InBand(rated[n].rate);
      var i :| 0 <= i < |d| && d[i].rate == rated[n].rate;
      assert rows[i].rate == x;
    }
  }

  /** The winner is the first readable bid, rated before deduplication and the band filter. */
  lemma WinnerIsFirstBid(items: seq<Json>, a: real, sucs: real, base: real)
    requires DecodeBids(items).BidRows? && DecodeBids(items).bids != [] && DecodeBids(items).hasNameColumn
    ensures
      var b := DecodeBids(items).bids[0];
      BidSection(items, a, sucs, base) == Ok(BidSection(items, a, sucs, base).value)
      && BidSection(items, a, sucs, base).value.winner == NameText(b.name)
      && BidSection(items, a, sucs, base).value.winRate == Rounding.Round(BidRate(b.amount, a, sucs, base), 5)
      && |BidSection(items, a, sucs, base).value.bidderRates| == |DecodeBids(items).bids|
  {
  }

  lemma {:induction false} BandOfNoneInBand(rs: seq<RatedBid>)
    requires forall i :: 0 <= i < |rs| ==> !InBand(rs[i].rate)
    ensures Band(rs) == []
    decreases |rs|
  {
    if rs != [] {
      BandOfNoneInBand(rs[1..]);
    }
  }

  /**
   * Without a positive lower-limit rate or base price every bid rate is the
   * sentinel 0, so the winner's rate is 0 and no bid is displayed.
   */
  lemma SentinelShowsNoBids(items: seq<Json>, a: real, sucs: real, base: real)
    requires !Reconstructible(sucs, base)
    requires DecodeBids(items).BidRows? && DecodeBids(items).bids != [] && DecodeBids(items).hasNameColumn
    ensures BidSection(items, a, sucs, base).Ok?
    ensures BidSection(items, a, sucs, base).value.winRate == 0.0
    ensures BidSection(items, a, sucs, base).value.display == Some([])
    ensures forall x :: x in BidSection(items, a, sucs, base).value.bidderRates ==> x == 0.0
  {
    Rounding.RoundZero();
    var bids := DecodeBids(items).bids;
    var rated := RateBids(bids, a, sucs, base);
    SentinelRates(bids, a, sucs, base);
    var u := DedupBy(rated, RateOf, {});
    assert forall i :: 0 <= i < |u| ==> u[i] in rated && !InBand(u[i].rate);
    BandOfNoneInBand(u);
  }

  /**
   * The theoretical rates of the complete estimate rows; none without an
   * estimate frame or when a base amount is zero. A row with a missing
   * amount makes every combination it joins a NaN mean, which the code
   * sorts after the numeric ones; the numeric ones are these.
   */
  function TheoOf(est: Option<seq<EstimateRow>>): (theo: seq<TheoRate>)
    ensures est.None? ==> theo == []
    ensures est.Some? && NonZeroBases(CompleteEstimates(est.value)) ==>
      theo == TheoreticalRates(CompleteEstimates(est.value))
  {
    if est.Some? && NonZeroBases(CompleteEstimates(est.value)) then TheoreticalRates(CompleteEstimates(est.value)) else []
  }

  /**
   * The bid side on the fetched opening results, with the base price of
   * the estimate frame; a missing (NaN) base price fails the
   * `base_price > 0` test just as `0` does.
   */
  function BidsOf(r: Replies, est: Option<seq<EstimateRow>>): Result<BidSide, Failure> {
    var base := if est.Some? then BasePrice(est.value).GetOr(0.0) else 0.0;
    var items := if r.bids.Decoded? then BidItems(r.bids.body) else [];
    BidSection(items, AValue(r.costs), SuccessRate(r.threshold), base)
  }

  /**
   * `analyze_gongo`: an exception when the estimates cannot be fetched, an
   * HTTP error when the opening results cannot; otherwise the announcement's
   * number, combined table, winner info, theoretical rates and bid rates.
   * Other lookups that fail count as empty or zero. The table is the
   * corrected `Combine`; `AnalyzeAsWritten` is the code's own.
   */
  function Analyze(input: string, r: Replies): (res: Result<Analysis, Failure>)
    ensures r.estimates.Unreachable? ==> res == Err(Exception)
    ensures !r.estimates.Unreachable? && r.bids.Unreachable? ==> res == Err(HttpError)
    ensures res.Ok? ==> res.value.number == ParseIdentifier(input).number
    ensures res.Ok? ==> res.value.info.officer == OfficerName(r.officer)
    ensures res.Ok? ==> res.value.theo == TheoOf(DecodeEstimates(r.estimates))
    ensures res.Ok? ==> SortedBy(res.value.table, RowRate)
  {
    if r.estimates.Unreachable? then Err(Exception)
    else if r.bids.Unreachable? then Err(HttpError)
    else
      var est := DecodeEstimates(r.estimates);
      var theo := TheoOf(est);
      match BidsOf(r, est)
      case Err(e) => Err(e)
      case Ok(side) =>
        Ok(Analysis(ParseIdentifier(input).number, Combine(theo, side.display),
                    Info(side.winner, side.winRate, OfficerName(r.officer)), theo, side.bidderRates))
  }

  /**
   * `df_rates` is built, and so is not empty, exactly when the estimate
   * frame has at least four rows: its combinations are averaged whatever
   * the cells hold, a missing amount or a zero `bssamt` giving NaN or
   * infinite means rather than an exception.
   */
  predicate RateFrameBuilt(est: Option<seq<EstimateRow>>) {
    est.Some? && |est.value| >= 4
  }

  /** Numeric theoretical rates only come from a built `df_rates`. */
  lemma TheoryNeedsRateFrame(est: Option<seq<EstimateRow>>)
    ensures TheoOf(est) != [] ==> RateFrameBuilt(est)
  {
    if TheoOf(est) != [] {
      assert |CompleteEstimates(est.value)| >= 4;
    }
  }

  /**
   * `analyze_gongo` as written: the concatenation of app.py:389-393 raises
   * when `df_rates` is not empty but there is no bid table, and the
   * exception handler turns that into an error.
   */
  function AnalyzeAsWritten(input: string, r: Replies): (res: Result<Analysis, Failure>)
    ensures res.Ok? ==> res == Analyze(input, r)
    ensures res.Err? && Analyze(input, r).Ok? ==>
      && res == Err(Exception)
      && RateFrameBuilt(DecodeEstimates(r.estimates))
      && BidsOf(r, DecodeEstimates(r.estimates)).Ok?
      && BidsOf(r, DecodeEstimates(r.estimates)).value.display.None?
  {
    if r.estimates.Unreachable? then Err(Exception)
    else if r.bids.Unreachable? then Err(HttpError)
    else
      var est := DecodeEstimates(r.estimates);
      var theo := TheoOf(est);
      match BidsOf(r, est)
      case Err(e) => Err(e)
      case Ok(side) =>
        TheoryNeedsRateFrame(est);
        CombineAsWrittenFails(theo, RateFrameBuilt(est), side.display);
        match CombineAsWritten(theo, RateFrameBuilt(est), side.display)
        case Err(e) => Err(e)
        case Ok(table) =>
          Ok(Analysis(ParseIdentifier(input).number, table,
                      Info(side.winner, side.winRate, OfficerName(r.officer)), theo, side.bidderRates))
  }

  /**
   * In the corrected analysis an announcement whose opening results cannot
   * be decoded still reports its theoretical rates as its table.
   */
  lemma UndecodableBidsKeepTheory(input: string, r: Replies)
    requires !r.estimates.Unreachable? && r.bids.Undecodable?
    ensures Analyze(input, r).Ok?
    ensures Analyze(input, r).value.info.winner == NoResults && Analyze(input, r).value.info.rate == 0.0
    ensures |Analyze(input, r).value.table| == |TheoOf(DecodeEstimates(r.estimates))|
  {
    assert DecodeBids([]) == NoAmountColumn;
  }

  /**
   * As written, the same announcement fails with an exception as soon as
   * its estimate frame has four rows, so it is logged as an error and pools
   * nothing.
   */
  lemma UndecodableBidsFailAsWritten(input: string, r: Replies)
    requires !r.estimates.Unreachable? && r.bids.Undecodable?
    ensures AnalyzeAsWritten(input, r).Err? <==> RateFrameBuilt(DecodeEstimates(r.estimates))
    ensures AnalyzeAsWritten(input, r).Err? ==> AnalyzeAsWritten(input, r) == Err(Exception)
  {
    assert DecodeBids([]) == NoAmountColumn;
    var est := DecodeEstimates(r.estimates);
    TheoryNeedsRateFrame(est);
    CombineAsWrittenFails(TheoOf(est), RateFrameBuilt(est), BidsOf(r, est).value.display);
  }

  /**
   * Four or more estimate rows with fewer than four complete ones, or with
   * a zero `bssamt`, give no numeric theoretical rate; the code still
   * builds `df_rates` from their NaN or infinite means, so undecodable
   * opening results make it raise where the corrected analysis succeeds
   * with an empty table.
   */
  lemma NonNumericRatesFailAsWritten(input: string, r: Replies)
    requires !r.estimates.Unreachable? && r.bids.Undecodable?
    requires RateFrameBuilt(DecodeEstimates(r.estimates))
    requires |CompleteEstimates(DecodeEstimates(r.estimates).value)| < 4
      || !NonZeroBases(CompleteEstimates(DecodeEstimates(r.estimates).value))
    ensures TheoOf(DecodeEstimates(r.estimates)) == []
    ensures AnalyzeAsWritten(input, r) == Err(Exception)
    ensures Analyze(input, r).Ok? && Analyze(input, r).value.table == []
  {
    UndecodableBidsFailAsWritten(input, r);
    UndecodableBidsKeepTheory(input, r);
  }
}
