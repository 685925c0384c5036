/**
 * The blue-ocean search inside the hot zone: slice the zone into narrow
 * bins, count theoretical and actual bid rates per bin with numpy's
 * histogram rules, and pick the first bin where theoretical density is
 * high and bidders are few.
 */
module BlueOcean {
  import opened Wrappers

  /** The rates of `pool` within `[lo, hi]`, in order. */
  function InRange(pool: seq<real>, lo: real, hi: real): (r: seq<real>)
    ensures |r| <= |pool|
    ensures forall i :: 0 <= i < |r| ==> lo <= r[i] <= hi && r[i] in pool
    ensures forall x :: x in pool && lo <= x <= hi ==> x in r
  {
    if pool == [] then []
    else if lo <= pool[0] <= hi then [pool[0]] + InRange(pool[1..], lo, hi)
    else InRange(pool[1..], lo, hi)
  }

  function Ceil(x: real): (c: int)
    ensures x <= c as real < x + 1.0
  {
    -((-x).Floor)
  }

  /** The length of `np.arange(start, stop, step)`: `ceil((stop - start) / step)`, or 0. */
  function ArangeLength(start: real, stop: real, step: real): nat
    requires step > 0.0
  {
    if stop <= start then 0 else Ceil((stop - start) / step)
  }

  predicate Nondecreasing(e: seq<real>) {
    forall i, j :: 0 <= i < j < |e| ==> e[i] <= e[j]
  }

  predicate Increasing(e: seq<real>) {
    forall i, j :: 0 <= i < j < |e| ==> e[i] < e[j]
  }

  /**
   * The bin edges `np.arange(hs, he + w, w)`, or `[hs, he]` when that has
   * fewer than two edges. They start at `hs` and reach `he`.
   */
  function Edges(hs: real, he: real, w: real): (e: seq<real>)
    requires w > 0.0 && hs <= he
    ensures |e| >= 2 && e[0] == hs && e[|e| - 1] >= he
    ensures Nondecreasing(e)
    ensures |e| == 2 || Increasing(e)
  {
    var n := ArangeLength(hs, he + w, w);
    if n < 2 then [hs, he]
    else
      EdgesReach(hs, he, w, n);
      ArangeIncreasing(hs, w, n);
      Arange(hs, w, n)
  }

  /** `np.arange` with `n` steps of `w` from `hs`. */
  function Arange(hs: real, w: real, n: nat): (e: seq<real>)
    ensures |e| == n
    ensures forall i :: 0 <= i < n ==> e[i] == hs + i as real * w
  {
    seq(n, i requires 0 <= i < n => hs + i as real * w)
  }

  lemma ArangeIncreasing(hs: real, w: real, n: nat)
    requires w > 0.0
    ensures Increasing(Arange(hs, w, n))
  {
    var e := Arange(hs, w, n);
    forall i, j | 0 <= i < j < n ensures e[i] < e[j] {
      StepsIncrease(i, j, w);
    }
  }

  lemma EdgesReach(hs: real, he: real, w: real, n: nat)
    requires w > 0.0 && hs <= he && n == ArangeLength(hs, he + w, w)
    ensures hs + (n - 1) as real * w >= he
  {
    var q := (he + w - hs) / w;
    assert q * w == he + w - hs;
    assert n as real >= q;
    assert n as real * w >= q * w;
    assert (n - 1) as real * w == n as real * w - w;
  }

  lemma StepsIncrease(i: nat, j: nat, w: real)
    requires i < j && w > 0.0
    ensures i as real * w < j as real * w
  {
    assert j as real * w - i as real * w == (j - i) as real * w;
  }

  /** How many of `vals` lie in `[lo, hi)`, or in `[lo, hi]` when `closed`. */
  function CountBin(vals: seq<real>, lo: real, hi: real, closed: bool): (c: nat)
    ensures c <= |vals|
  {
    if vals == [] then 0
    else
      var inBin := lo <= vals[0] && (vals[0] < hi || (closed && vals[0] == hi));
      (if inBin then 1 else 0) + CountBin(vals[1..], lo, hi, closed)
  }

  /** `np.histogram(vals, bins=edges)`: half-open bins, the last one closed. */
  function Histogram(vals: seq<real>, edges: seq<real>): (h: seq<nat>)
    requires |edges| >= 2
    ensures |h| == |edges| - 1
    ensures forall i :: 0 <= i < |h| ==> h[i] == CountBin(vals, edges[i], edges[i + 1], i == |edges| - 2)
  {
    seq(|edges| - 1, i requires 0 <= i < |edges| - 1 => CountBin(vals, edges[i], edges[i + 1], i == |edges| - 2))
  }

  function Sum(h: seq<nat>): nat {
    if h == [] then 0 else h[0] + Sum(h[1..])
  }

  /** Splitting `[a, c]` at `b` splits the count. */
  lemma {:induction false} CountSplit(vals: seq<real>, a: real, b: real, c: real)
    requires a <= b <= c
    ensures CountBin(vals, a, c, true) == CountBin(vals, a, b, false) + CountBin(vals, b, c, true)
  {
    if vals != [] {
      CountSplit(vals[1..], a, b, c);
    }
  }

  lemma HistogramTail(vals: seq<real>, edges: seq<real>)
    requires |edges| > 2 && Nondecreasing(edges)
    ensures Nondecreasing(edges[1..]) && edges[0] <= edges[1] <= edges[|edges| - 1]
    ensures Sum(Histogram(vals, edges)) ==
      CountBin(vals, edges[0], edges[1], false) + Sum(Histogram(vals, edges[1..]))
  {
    var h := Histogram(vals, edges);
    assert h[1..] == Histogram(vals, edges[1..]);
  }

  /** The bins count every value between the first and the last edge exactly once. */
  lemma {:induction false} HistogramTotal(vals: seq<real>, edges: seq<real>)
    requires |edges| >= 2 && Nondecreasing(edges)
    ensures Sum(Histogram(vals, edges)) == CountBin(vals, edges[0], edges[|edges| - 1], true)
    decreases |edges|
  {
    if |edges| > 2 {
      HistogramTail(vals, edges);
      HistogramTotal(vals, edges[1..]);
      CountSplit(vals, edges[0], edges[1], edges[|edges| - 1]);
    }
  }

  lemma {:induction false} CountAllInRange(vals: seq<real>, lo: real, hi: real)
    requires forall i :: 0 <= i < |vals| ==> lo <= vals[i] <= hi
    ensures CountBin(vals, lo, hi, true) == |vals|
  {
    if vals != [] {
      CountAllInRange(vals[1..], lo, hi);
    }
  }

  function MaxNat(s: seq<nat>): (m: nat)
    requires s != []
    ensures m in s && forall i :: 0 <= i < |s| ==> s[i] <= m
  {
    if |s| == 1 then s[0]
    else
      var m := MaxNat(s[1..]);
      assert forall i :: 1 <= i < |s| ==> s[i] == s[1..][i - 1];
      if s[0] >= m then s[0] else m
  }

  lemma {:induction false} SumPositive(h: seq<nat>)
    requires Sum(h) > 0
    ensures exists i :: 0 <= i < |h| && h[i] > 0
  {
    if h[0] == 0 {
      SumPositive(h[1..]);
      var i :| 0 <= i < |h[1..]| && h[1..][i] > 0;
      assert h[i + 1] > 0;
    }
  }

  /**
   * The score of a bin: its share of the theoretical rates relative to the
   * fullest bin's share, times `1 / (bidders + 1)`.
   */
  function Score(tc: nat, maxc: nat, total: nat, bc: nat): real
    requires maxc > 0 && total > 0
  {
    var demand := (tc as real / total as real) / (maxc as real / total as real);
    var supplyInv := 1.0 / (bc as real + 1.0);
    demand * supplyInv
  }

  /** The score is `tc / (maxc * (bc + 1))`: the total cancels out. */
  lemma ScoreClosedForm(tc: nat, maxc: nat, total: nat, bc: nat)
    requires maxc > 0 && total > 0
    ensures Score(tc, maxc, total, bc) == tc as real / (maxc as real * (bc as real + 1.0))
  {
    var t, a, m := total as real, tc as real, maxc as real;
    var q := (a / t) / (m / t);
    assert q * (m / t) == a / t;
    assert q * (m / t) * t == q * m;
    assert q * m == a;
    assert q == a / m;
  }

  /** A bin with theoretical rates scores in `(0, 1]`. */
  lemma ScoreRange(tc: nat, maxc: nat, total: nat, bc: nat)
    requires 0 < tc <= maxc && total > 0
    ensures 0.0 < Score(tc, maxc, total, bc) <= 1.0
  {
    ScoreClosedForm(tc, maxc, total, bc);
    var d := maxc as real * (bc as real + 1.0);
    assert d >= maxc as real;
    assert tc as real / d <= 1.0;
  }

  /** Of two bins with the same theoretical count, the one with fewer bidders scores strictly higher. */
  lemma FewerBiddersScoreHigher(tc: nat, maxc: nat, total: nat, bc1: nat, bc2: nat)
    requires 0 < tc && maxc > 0 && total > 0 && bc1 < bc2
    ensures Score(tc, maxc, total, bc1) > Score(tc, maxc, total, bc2)
  {
    ScoreClosedForm(tc, maxc, total, bc1);
    ScoreClosedForm(tc, maxc, total, bc2);
    var d1 := maxc as real * (bc1 as real + 1.0);
    var d2 := maxc as real * (bc2 as real + 1.0);
    assert 0.0 < d1 < d2;
    assert tc as real / d1 > tc as real / d2;
  }

  /** The bins of the hot zone: edges, theoretical and bid counts, largest theoretical count and total. */
  datatype Bins = Bins(edges: seq<real>, theo: seq<nat>, bids: seq<nat>, maxTheo: nat, totalTheo: nat)

  predicate WellFormed(b: Bins) {
    |b.edges| >= 2 && |b.theo| == |b.edges| - 1 && |b.bids| == |b.theo|
    && b.maxTheo > 0 && b.totalTheo > 0 && forall i :: 0 <= i < |b.theo| ==> b.theo[i] <= b.maxTheo
  }

  function BinScore(b: Bins, i: nat): real
    requires WellFormed(b) && i < |b.theo|
  {
    Score(b.theo[i], b.maxTheo, b.totalTheo, b.bids[i])
  }

  function Center(edges: seq<real>, i: nat): real
    requires i + 1 < |edges|
  {
    (edges[i] + edges[i + 1]) / 2.0
  }

  /** One reported bin: its centre, score and the two counts. */
  datatype BinRow = BinRow(center: real, score: real, theoCount: nat, bidCount: nat)

  /** The rows for the first `n` bins that hold a theoretical rate, in bin order. */
  function ScoredRows(b: Bins, n: nat): (rows: seq<BinRow>)
    requires WellFormed(b) && n <= |b.theo|
    ensures |rows| <= n
  {
    if n == 0 then []
    else
      var prev := ScoredRows(b, n - 1);
      if b.theo[n - 1] == 0 then prev
      else prev + [BinRow(Center(b.edges, n - 1), BinScore(b, n - 1), b.theo[n - 1], b.bids[n - 1])]
  }

  /** Every row is a bin holding theoretical rates, scoring in `(0, 1]`, centred on one of the first `n` bins. */
  lemma {:induction false} ScoredRowsFacts(b: Bins, n: nat)
    requires WellFormed(b) && n <= |b.theo|
    ensures forall j :: 0 <= j < |ScoredRows(b, n)| ==>
      ScoredRows(b, n)[j].theoCount > 0 && 0.0 < ScoredRows(b, n)[j].score <= 1.0
    ensures forall j :: 0 <= j < |ScoredRows(b, n)| ==>
      exists i :: 0 <= i < n && ScoredRows(b, n)[j].center == Center(b.edges, i)
  {
    if n > 0 {
      ScoredRowsFacts(b, n - 1);
      if b.theo[n - 1] > 0 {
        ScoreRange(b.theo[n - 1], b.maxTheo, b.totalTheo, b.bids[n - 1]);
      }
      var rows, prev := ScoredRows(b, n), ScoredRows(b, n - 1);
      forall j | 0 <= j < |rows| ensures exists i :: 0 <= i < n && rows[j].center == Center(b.edges, i) {
        if j < |prev| {
          assert rows[j] == prev[j];
          var i :| 0 <= i < n - 1 && prev[j].center == Center(b.edges, i);
          assert 0 <= i < n && rows[j].center == Center(b.edges, i);
        } else {
          assert rows[j].center == Center(b.edges, n - 1);
        }
      }
    } else {
      assert ScoredRows(b, n) == [];
    }
  }

  /** The rows come in strictly increasing order of centre, so sorting them by centre changes nothing. */
  lemma {:induction false} RowsByCenter(b: Bins, n: nat)
    requires WellFormed(b) && n <= |b.theo| && (|b.edges| == 2 || Increasing(b.edges))
    ensures forall j, k :: 0 <= j < k < |ScoredRows(b, n)| ==> ScoredRows(b, n)[j].center < ScoredRows(b, n)[k].center
  {
    if n > 0 {
      RowsByCenter(b, n - 1);
      ScoredRowsFacts(b, n - 1);
      var prev := ScoredRows(b, n - 1);
      if b.theo[n - 1] > 0 {
        forall j | 0 <= j < |prev| ensures prev[j].center < Center(b.edges, n - 1) {
          var i :| 0 <= i < n - 1 && prev[j].center == Center(b.edges, i);
          assert b.edges[i] < b.edges[n - 1] && b.edges[i + 1] < b.edges[n];
        }
      }
    }
  }

  /**
   * Bin `k` is among the first `n`, holds theoretical rates, no such bin
   * scores higher, and every earlier one scores lower.
   */
  predicate IsBestBin(b: Bins, k: nat, n: nat)
    requires WellFormed(b) && n <= |b.theo|
  {
    && k < n && b.theo[k] > 0
    && (forall i :: 0 <= i < n && b.theo[i] > 0 ==> BinScore(b, i) <= BinScore(b, k))
    && (forall i :: 0 <= i < k && b.theo[i] > 0 ==> BinScore(b, i) < BinScore(b, k))
  }

  /** The first best-scoring bin among the first `n`, if any holds theoretical rates. */
  function BestBin(b: Bins, n: nat): (r: Option<nat>)
    requires WellFormed(b) && n <= |b.theo|
    ensures r.Some? ==> r.value < n
  {
    if n == 0 then None
    else
      var prev := BestBin(b, n - 1);
      if b.theo[n - 1] == 0 then prev
      else match prev
        case None => Some(n - 1)
        case Some(k) => if BinScore(b, n - 1) > BinScore(b, k) then Some(n - 1) else prev
  }

  /** The best bin is best, and there is one exactly when some bin holds theoretical rates, that is, when there are rows. */
  lemma {:induction false} BestBinFacts(b: Bins, n: nat)
    requires WellFormed(b) && n <= |b.theo|
    ensures BestBin(b, n).Some? ==> IsBestBin(b, BestBin(b, n).value, n)
    ensures BestBin(b, n).None? <==> forall i :: 0 <= i < n ==> b.theo[i] == 0
    ensures BestBin(b, n).None? <==> ScoredRows(b, n) == []
  {
    if n > 0 {
      BestBinFacts(b, n - 1);
    }
  }

  /** The best bin is unique. */
  lemma BestBinUnique(b: Bins, k: nat, n: nat)
    requires WellFormed(b) && n <= |b.theo| && IsBestBin(b, k, n)
    ensures BestBin(b, n) == Some(k)
  {
    BestBinFacts(b, n);
    var m := BestBin(b, n).value;
    assert !(m < k) && !(k < m);
  }

  /** The result: the scored rows and the best bin's range and centre. */
  datatype Blue = Blue(rows: seq<BinRow>, bestStart: real, bestEnd: real, bestCenter: real)

  /** The bins of the zone `[hs, he]` for the two filtered pools. */
  function BinsOf(theo: seq<real>, bids: seq<real>, hs: real, he: real, w: real): (b: Bins)
    requires w > 0.0 && hs <= he
    ensures |b.edges| >= 2 && |b.theo| == |b.edges| - 1 && |b.bids| == |b.theo|
    ensures b.edges[0] == hs && b.edges[|b.edges| - 1] >= he && Nondecreasing(b.edges)
    ensures |b.edges| == 2 || Increasing(b.edges)
    ensures forall i :: 0 <= i < |b.theo| ==> b.theo[i] <= b.maxTheo
    ensures b.theo == Histogram(theo, b.edges) && b.totalTheo == Sum(b.theo)
  {
    var edges := Edges(hs, he, w);
    var tcs := Histogram(theo, edges);
    Bins(edges, tcs, Histogram(bids, edges), MaxNat(tcs), Sum(tcs))
  }

  /**
   * The scoring pass over well-formed bins: the rows of the bins holding
   * theoretical rates and the first best-scoring bin; nothing when no bin
   * holds one.
   */
  function Search(b: Bins): (r: Option<Blue>)
    requires WellFormed(b)
    requires |b.edges| == 2 || Increasing(b.edges)
    ensures r.None? <==> forall i :: 0 <= i < |b.theo| ==> b.theo[i] == 0
    ensures r.Some? ==> forall j :: 0 <= j < |r.value.rows| ==>
      r.value.rows[j].theoCount > 0 && 0.0 < r.value.rows[j].score <= 1.0
    ensures r.Some? ==> exists k: nat :: (IsBestBin(b, k, |b.theo|) && r.value.bestStart == b.edges[k]
      && r.value.bestEnd == b.edges[k + 1] && r.value.bestCenter == Center(b.edges, k))
    ensures r.Some? ==> forall j, k :: 0 <= j < k < |r.value.rows| ==> r.value.rows[j].center < r.value.rows[k].center
  {
    RowsByCenter(b, |b.theo|);
    ScoredRowsFacts(b, |b.theo|);
    BestBinFacts(b, |b.theo|);
    var rows := ScoredRows(b, |b.theo|);
    var best := BestBin(b, |b.theo|);
    if rows == [] then None
    else
      var k := best.value;
      Some(Blue(rows, b.edges[k], b.edges[k + 1], Center(b.edges, k)))
  }

  /**
   * `find_blue_ocean_v3`: nothing when a zone bound is missing, when either
   * pool has no rate in the zone, or when no bin holds a theoretical rate;
   * otherwise the scored rows and the first best bin.
   */
  function BlueOceanOf(theoPool: seq<real>, bidPool: seq<real>, hs: Option<real>, he: Option<real>, w: real): (r: Option<Blue>)
    requires w > 0.0
  {
    if hs.None? || he.None? then None
    else
      var theo := InRange(theoPool, hs.value, he.value);
      var bids := InRange(bidPool, hs.value, he.value);
      if theo == [] || bids == [] then None
      else
        assert hs.value <= theo[0] <= he.value;
        var b := BinsOf(theo, bids, hs.value, he.value, w);
        if b.totalTheo == 0 || b.maxTheo == 0 then None
        else Search(b)
  }

  /** A search with both bounds and rates of both kinds in the zone always finds a bin. */
  lemma BlueOceanFound(theoPool: seq<real>, bidPool: seq<real>, hs: Option<real>, he: Option<real>, w: real)
    requires w > 0.0
    ensures BlueOceanOf(theoPool, bidPool, hs, he, w).None? <==>
      (hs.None? || he.None? || InRange(theoPool, hs.value, he.value) == [] || InRange(bidPool, hs.value, he.value) == [])
  {
    if hs.Some? && he.Some? {
      var theo := InRange(theoPool, hs.value, he.value);
      var bids := InRange(bidPool, hs.value, he.value);
      if theo != [] && bids != [] {
        assert hs.value <= theo[0] <= he.value;
        BinsFound(theo, bids, hs.value, he.value, w);
      }
    }
  }

  /** Theoretical rates inside the zone always land in some bin, so the search succeeds. */
  lemma BinsFound(theo: seq<real>, bids: seq<real>, hs: real, he: real, w: real)
    requires w > 0.0 && hs <= he && theo != []
    requires forall i :: 0 <= i < |theo| ==> hs <= theo[i] <= he
    ensures BinsOf(theo, bids, hs, he, w).totalTheo > 0 && BinsOf(theo, bids, hs, he, w).maxTheo > 0
    ensures Search(BinsOf(theo, bids, hs, he, w)).Some?
  {
    var b := BinsOf(theo, bids, hs, he, w);
    var i := SomeBinHolds(theo, b.edges, hs, he);
    assert b.theo[i] > 0 && b.totalTheo > 0;
    assert b.maxTheo >= b.theo[i];
    assert WellFormed(b);
    assert !(forall j :: 0 <= j < |b.theo| ==> b.theo[j] == 0);
  }

  /** Some bin counts a theoretical rate that lies between the first edge and `he`. */
  lemma SomeBinHolds(theo: seq<real>, edges: seq<real>, hs: real, he: real) returns (i: nat)
    requires theo != [] && |edges| >= 2 && Nondecreasing(edges)
    requires edges[0] == hs && edges[|edges| - 1] >= he
    requires forall i :: 0 <= i < |theo| ==> hs <= theo[i] <= he
    ensures i < |edges| - 1 && Histogram(theo, edges)[i] > 0 && Sum(Histogram(theo, edges)) > 0
  {
    HistogramTotal(theo, edges);
    CountAllInRange(theo, hs, edges[|edges| - 1]);
    SumPositive(Histogram(theo, edges));
    i :| 0 <= i < |Histogram(theo, edges)| && Histogram(theo, edges)[i] > 0;
  }

  /**
   * A found blue ocean reports only bins holding theoretical rates, each
   * scoring in `(0, 1]`, in increasing order of centre; its best range is a
   * pair of consecutive edges, the first of the bins that score highest.
   */
  lemma BlueOceanBest(theoPool: seq<real>, bidPool: seq<real>, hs: real, he: real, w: real)
    requires w > 0.0 && BlueOceanOf(theoPool, bidPool, Some(hs), Some(he), w).Some?
    ensures
      var r := BlueOceanOf(theoPool, bidPool, Some(hs), Some(he), w).value;
      var b := BinsOf(InRange(theoPool, hs, he), InRange(bidPool, hs, he), hs, he, w);
      && WellFormed(b)
      && (forall j :: 0 <= j < |r.rows| ==> r.rows[j].theoCount > 0 && 0.0 < r.rows[j].score <= 1.0)
      && (forall j, k :: 0 <= j < k < |r.rows| ==> r.rows[j].center < r.rows[k].center)
      && exists k: nat :: (IsBestBin(b, k, |b.theo|) && r.bestStart == b.edges[k] && r.bestEnd == b.edges[k + 1]
                           && r.bestCenter == Center(b.edges, k))
  {
    var theo, bids := InRange(theoPool, hs, he), InRange(bidPool, hs, he);
    assert hs <= theo[0] <= he;
    var b := BinsOf(theo, bids, hs, he, w);
    var r := Search(b).value;
    var k: nat :| IsBestBin(b, k, |b.theo|) && r.bestStart == b.edges[k] && r.bestEnd == b.edges[k + 1]
                  && r.bestCenter == Center(b.edges, k);
  }

  /** One step of the scoring pass over a bin holding theoretical rates. */
  lemma ScanStep(b: Bins, i: nat)
    requires WellFormed(b) && i < |b.theo| && b.theo[i] > 0
    ensures ScoredRows(b, i + 1) ==
      ScoredRows(b, i) + [BinRow(Center(b.edges, i), BinScore(b, i), b.theo[i], b.bids[i])]
    ensures BestBin(b, i + 1) ==
      if BestBin(b, i).None? || BinScore(b, i) > BinScore(b, BestBin(b, i).value) then Some(i)
      else BestBin(b, i)
  {}

  /**
   * `find_blue_ocean_v3`: filter both pools to the zone, histogram them on
   * shared edges, and score the bins.
   */
  method FindBlueOcean(theoPool: seq<real>, bidPool: seq<real>, hs: Option<real>, he: Option<real>, w: real)
    returns (r: Option<Blue>)
    requires w > 0.0
    ensures r == BlueOceanOf(theoPool, bidPool, hs, he, w)
  {
    if hs.None? || he.None? {
      return None;
    }
    var theo := InRange(theoPool, hs.value, he.value);
    var bids := InRange(bidPool, hs.value, he.value);
    if theo == [] || bids == [] {
      return None;
    }
    assert hs.value <= theo[0] <= he.value;
    var edges := Edges(hs.value, he.value, w);
    var theoCounts := Histogram(theo, edges);
    var bidCounts := Histogram(bids, edges);
    var total := Sum(theoCounts);
    if total == 0 {
      return None;
    }
    var maxTheo := MaxNat(theoCounts);
    if maxTheo == 0 {
      return None;
    }
    assert Bins(edges, theoCounts, bidCounts, maxTheo, total) == BinsOf(theo, bids, hs.value, he.value, w);
    r := ScoreBins(edges, theoCounts, bidCounts, maxTheo, total);
  }

  /**
   * The scoring loop of `find_blue_ocean_v3`: for each bin holding a
   * theoretical rate, append its row and keep it as best when it scores
   * strictly higher than the best so far.
   */
  method ScoreBins(edges: seq<real>, theoCounts: seq<nat>, bidCounts: seq<nat>, maxTheo: nat, total: nat)
    returns (r: Option<Blue>)
    requires WellFormed(Bins(edges, theoCounts, bidCounts, maxTheo, total))
    requires |edges| == 2 || Increasing(edges)
    ensures r == Search(Bins(edges, theoCounts, bidCounts, maxTheo, total))
  {
    ghost var b := Bins(edges, theoCounts, bidCounts, maxTheo, total);
    var rows: seq<BinRow> := [];
    var bestScore := -1.0;
    var bestStart, bestEnd, bestCenter := 0.0, 0.0, 0.0;
    for i := 0 to |edges| - 1
      invariant rows == ScoredRows(b, i)
      invariant BestBin(b, i).None? ==> bestScore == -1.0
      invariant BestBin(b, i).Some? ==>
        var k := BestBin(b, i).value;
        bestScore == BinScore(b, k) && bestStart == edges[k] && bestEnd == edges[k + 1]
        && bestCenter == Center(edges, k)
    {
      var start, end := edges[i], edges[i + 1];
      var center := (start + end) / 2.0;
      var tc, bc := theoCounts[i], bidCounts[i];
      if tc == 0 {
        continue;
      }
      var score := Score(tc, maxTheo, total, bc);
      ScoreRange(tc, maxTheo, total, bc);
      ScanStep(b, i);
      rows := rows + [BinRow(center, score, tc, bc)];
      if score > bestScore {
        bestScore := score;
        bestStart, bestEnd := start, end;
        bestCenter := center;
      }
    }
    BestBinFacts(b, |theoCounts|);
    if rows == [] {
      return None;
    }
    r := Some(Blue(rows, bestStart, bestEnd, bestCenter));
  }
}
