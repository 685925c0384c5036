/**
 * The theoretical ("1365") rate set of an announcement: every 4-combination
 * of its preliminary base-price estimates, averaged, sorted and numbered.
 */
module Theoretical {
  import opened Wrappers
  import opened Sequences

  /** One preliminary base-price estimate: `bssamt` and `bsisPlnprc`. */
  datatype Estimate = Estimate(baseAmount: real, planAmount: real)

  /** One theoretical rate with its 1-based sequence number (`조합순번`). */
  datatype TheoRate = TheoRate(seqNo: nat, rate: real)

  /** The binomial coefficient, by Pascal's rule. */
  function Binom(n: nat, k: nat): nat {
    if k == 0 then 1 else if n == 0 then 0 else Binom(n - 1, k - 1) + Binom(n - 1, k)
  }

  /** Fewer than `k` things have no `k`-combination. */
  lemma {:induction false} BinomBelow(n: nat, k: nat)
    requires n < k
    ensures Binom(n, k) == 0
  {
    if n > 0 {
      BinomBelow(n - 1, k - 1);
      BinomBelow(n - 1, k);
    }
  }

  lemma {:induction false} Binom1(n: nat)
    ensures Binom(n, 1) == n
  {
    if n > 0 {
      Binom1(n - 1);
    }
  }

  /** One step of Pascal's rule on the closed forms, as plain integer algebra. */
  lemma PascalStep2(n: int, b1: int, b2: int)
    requires b1 == n - 1 && 2 * b2 == (n - 1) * (n - 2)
    ensures 2 * (b1 + b2) == n * (n - 1)
  {}

  lemma PascalStep3(n: int, b2: int, b3: int)
    requires 2 * b2 == (n - 1) * (n - 2) && 6 * b3 == (n - 1) * (n - 2) * (n - 3)
    ensures 6 * (b2 + b3) == n * (n - 1) * (n - 2)
  {}

  lemma PascalStep4(n: int, b3: int, b4: int)
    requires 6 * b3 == (n - 1) * (n - 2) * (n - 3)
    requires 24 * b4 == (n - 1) * (n - 2) * (n - 3) * (n - 4)
    ensures 24 * (b3 + b4) == n * (n - 1) * (n - 2) * (n - 3)
  {}

  lemma {:induction false} Binom2(n: nat)
    ensures 2 * Binom(n, 2) == n * (n - 1)
  {
    if n > 0 {
      Binom1(n - 1);
      Binom2(n - 1);
      PascalStep2(n, Binom(n - 1, 1), Binom(n - 1, 2));
    }
  }

  lemma {:induction false} Binom3(n: nat)
    ensures 6 * Binom(n, 3) == n * (n - 1) * (n - 2)
  {
    if n > 0 {
      Binom2(n - 1);
      Binom3(n - 1);
      PascalStep3(n, Binom(n - 1, 2), Binom(n - 1, 3));
    }
  }

  /** `C(n, 4) = n(n-1)(n-2)(n-3)/24`. */
  lemma {:induction false} Binom4(n: nat)
    ensures 24 * Binom(n, 4) == n * (n - 1) * (n - 2) * (n - 3)
  {
    if n > 0 {
      Binom3(n - 1);
      Binom4(n - 1);
      PascalStep4(n, Binom(n - 1, 3), Binom(n - 1, 4));
    }
  }

  /** A `k`-combination of `lo..n-1`: `k` indices in that range, strictly increasing. */
  predicate IsCombination(c: seq<nat>, lo: nat, n: nat, k: nat) {
    && |c| == k
    && (forall i :: 0 <= i < |c| ==> lo <= c[i] < n)
    && (forall i, j :: 0 <= i < j < |c| ==> c[i] < c[j])
  }

  function Prepend(x: nat, cs: seq<seq<nat>>): (r: seq<seq<nat>>)
    ensures |r| == |cs|
    ensures forall t :: 0 <= t < |r| ==> r[t] == [x] + cs[t]
  {
    seq(|cs|, t requires 0 <= t < |cs| => [x] + cs[t])
  }

  /**
   * The `k`-combinations of the indices `lo..n-1` in the order of Python's
   * `itertools.combinations`: those starting with `lo` first.
   */
  function Combinations(lo: nat, n: nat, k: nat): (cs: seq<seq<nat>>)
    requires lo <= n
    ensures |cs| == Binom(n - lo, k)
    ensures forall t :: 0 <= t < |cs| ==> IsCombination(cs[t], lo, n, k)
    decreases n - lo, k
  {
    if k == 0 then [[]]
    else if lo == n then []
    else
      var first := Prepend(lo, Combinations(lo + 1, n, k - 1));
      var rest := Combinations(lo + 1, n, k);
      first + rest
  }

  lemma PrependHas(x: nat, cs: seq<seq<nat>>, c: seq<nat>, rest: seq<seq<nat>>)
    requires c in cs
    ensures [x] + c in Prepend(x, cs) + rest
  {
    var t :| 0 <= t < |cs| && cs[t] == c;
    assert (Prepend(x, cs) + rest)[t] == [x] + c;
  }

  lemma TailIsCombination(c: seq<nat>, lo: nat, n: nat, k: nat)
    requires k > 0 && IsCombination(c, lo, n, k) && c[0] == lo
    ensures IsCombination(c[1..], lo + 1, n, k - 1)
  {
    forall i | 0 <= i < |c[1..]| ensures lo + 1 <= c[1..][i] {
      assert c[0] < c[i + 1];
    }
  }

  lemma LaterIsCombination(c: seq<nat>, lo: nat, n: nat, k: nat)
    requires k > 0 && IsCombination(c, lo, n, k) && c[0] != lo
    ensures IsCombination(c, lo + 1, n, k)
  {
    forall i | 0 <= i < |c| ensures lo + 1 <= c[i] {
      if i > 0 {
        assert c[0] < c[i];
      }
    }
  }

  lemma CombinationsUnfold(lo: nat, n: nat, k: nat)
    requires lo < n && k > 0
    ensures Combinations(lo, n, k) == Prepend(lo, Combinations(lo + 1, n, k - 1)) + Combinations(lo + 1, n, k)
  {}

  /** Every combination occurs. */
  lemma {:induction false} CombinationsComplete(c: seq<nat>, lo: nat, n: nat, k: nat)
    requires lo <= n && IsCombination(c, lo, n, k)
    ensures c in Combinations(lo, n, k)
    decreases n - lo, k
  {
    if k > 0 {
      assert lo < n by {
        assert lo <= c[0] < n;
      }
      if c[0] == lo {
        TailIsCombination(c, lo, n, k);
        CombinationsComplete(c[1..], lo + 1, n, k - 1);
        StartingAtLo(c, lo, n, k);
      } else {
        LaterIsCombination(c, lo, n, k);
        CombinationsComplete(c, lo + 1, n, k);
        StartingLater(c, lo, n, k);
      }
    }
  }

  lemma StartingAtLo(c: seq<nat>, lo: nat, n: nat, k: nat)
    requires lo < n && k > 0 && c != [] && c[0] == lo
    requires c[1..] in Combinations(lo + 1, n, k - 1)
    ensures c in Combinations(lo, n, k)
  {
    CombinationsUnfold(lo, n, k);
    assert [lo] + c[1..] == c;
    PrependHas(lo, Combinations(lo + 1, n, k - 1), c[1..], Combinations(lo + 1, n, k));
  }

  lemma StartingLater(c: seq<nat>, lo: nat, n: nat, k: nat)
    requires lo < n && k > 0
    requires c in Combinations(lo + 1, n, k)
    ensures c in Combinations(lo, n, k)
  {
    CombinationsUnfold(lo, n, k);
  }

  /** No combination occurs twice. */
  lemma {:induction false} CombinationsDistinct(lo: nat, n: nat, k: nat)
    requires lo <= n
    ensures forall s, t :: 0 <= s < t < |Combinations(lo, n, k)| ==>
      Combinations(lo, n, k)[s] != Combinations(lo, n, k)[t]
    decreases n - lo, k
  {
    if k > 0 && lo < n {
      var inner := Combinations(lo + 1, n, k - 1);
      var first := Prepend(lo, inner);
      var rest := Combinations(lo + 1, n, k);
      var cs := first + rest;
      assert Combinations(lo, n, k) == cs;
      CombinationsDistinct(lo + 1, n, k - 1);
      CombinationsDistinct(lo + 1, n, k);
      forall s, t | 0 <= s < t < |cs| ensures cs[s] != cs[t] {
        if t < |first| {
          assert cs[s] == [lo] + inner[s] && cs[t] == [lo] + inner[t];
          assert cs[s][1..] == inner[s] && cs[t][1..] == inner[t];
        } else if s < |first| {
          assert cs[s][0] == lo;
          assert IsCombination(rest[t - |first|], lo + 1, n, k);
          assert cs[t] == rest[t - |first|];
          assert cs[t][0] >= lo + 1;
        } else {
          assert cs[s] == rest[s - |first|] && cs[t] == rest[t - |first|];
        }
      }
    }
  }

  function SelfRate(e: Estimate): real
    requires e.baseAmount != 0.0
  {
    e.planAmount / e.baseAmount * 100.0
  }

  predicate NonZeroBases(es: seq<Estimate>) {
    forall i :: 0 <= i < |es| ==> es[i].baseAmount != 0.0
  }

  /** The self-rate `bsisPlnprc / bssamt * 100` of every estimate (`SA_rate`). */
  function SelfRates(es: seq<Estimate>): (rs: seq<real>)
    requires NonZeroBases(es)
    ensures |rs| == |es|
    ensures forall i :: 0 <= i < |es| ==> rs[i] == SelfRate(es[i])
  {
    seq(|es|, i requires 0 <= i < |es| && NonZeroBases(es) => SelfRate(es[i]))
  }

  /** The mean of the four rates a 4-combination picks. */
  function MeanOf(rs: seq<real>, c: seq<nat>): real
    requires |c| == 4 && forall i :: 0 <= i < 4 ==> c[i] < |rs|
  {
    (rs[c[0]] + rs[c[1]] + rs[c[2]] + rs[c[3]]) / 4.0
  }

  /** `[np.mean(c) for c in itertools.combinations(rates, 4)]`. */
  function CombinationMeans(rs: seq<real>): (ms: seq<real>)
    ensures |ms| == Binom(|rs|, 4)
  {
    var cs := Combinations(0, |rs|, 4);
    seq(|cs|, t requires 0 <= t < |cs| => MeanOf(rs, cs[t]))
  }

  /** Every mean is the mean over some 4-combination of distinct indices. */
  lemma CombinationMeanSource(rs: seq<real>, t: nat)
    requires t < |CombinationMeans(rs)|
    ensures exists c :: IsCombination(c, 0, |rs|, 4) && CombinationMeans(rs)[t] == MeanOf(rs, c)
  {
    var c := Combinations(0, |rs|, 4)[t];
    assert IsCombination(c, 0, |rs|, 4);
  }

  /** Every 4-combination of distinct indices contributes its mean. */
  lemma CombinationMeanPresent(rs: seq<real>, c: seq<nat>)
    requires IsCombination(c, 0, |rs|, 4)
    ensures MeanOf(rs, c) in CombinationMeans(rs)
  {
    CombinationsComplete(c, 0, |rs|, 4);
    var cs := Combinations(0, |rs|, 4);
    var t :| 0 <= t < |cs| && cs[t] == c;
    assert CombinationMeans(rs)[t] == MeanOf(rs, c);
  }

  function RatesOf(ts: seq<TheoRate>): (rs: seq<real>)
    ensures |rs| == |ts|
    ensures forall i :: 0 <= i < |ts| ==> rs[i] == ts[i].rate
  {
    seq(|ts|, i requires 0 <= i < |ts| => ts[i].rate)
  }

  /** `reset_index` and `range(1, N + 1)`: number the rates 1..N in order. */
  function Number(rs: seq<real>): (ts: seq<TheoRate>)
    ensures |ts| == |rs|
    ensures forall i :: 0 <= i < |ts| ==> ts[i] == TheoRate(i + 1, rs[i])
  {
    seq(|rs|, i requires 0 <= i < |rs| => TheoRate(i + 1, rs[i]))
  }

  /**
   * The theoretical rate set: with at least four estimates, the means of
   * all 4-combinations of their self-rates in ascending order, numbered
   * from 1; with fewer, nothing.
   */
  function TheoreticalRates(es: seq<Estimate>): (ts: seq<TheoRate>)
    requires NonZeroBases(es)
    ensures |es| < 4 ==> ts == []
    ensures |ts| == Binom(|es|, 4)
    ensures forall i :: 0 <= i < |ts| ==> ts[i].seqNo == i + 1
    ensures Sorted(RatesOf(ts))
    ensures multiset(RatesOf(ts)) == multiset(CombinationMeans(SelfRates(es)))
  {
    if |es| < 4 then
      BinomBelow(|es|, 4);
      []
    else
      var sorted := SortReals(CombinationMeans(SelfRates(es)));
      assert |sorted| == |CombinationMeans(SelfRates(es))| by {
        assert |multiset(sorted)| == |sorted|;
      }
      var ts := Number(sorted);
      assert RatesOf(ts) == sorted;
      ts
  }

  /** Each theoretical rate is the mean self-rate of four distinct estimates. */
  lemma TheoreticalRateSource(es: seq<Estimate>, i: nat)
    requires NonZeroBases(es) && i < |TheoreticalRates(es)|
    ensures exists c :: IsCombination(c, 0, |es|, 4) && TheoreticalRates(es)[i].rate == MeanOf(SelfRates(es), c)
  {
    var ts := TheoreticalRates(es);
    var ms := CombinationMeans(SelfRates(es));
    assert ts[i].rate == RatesOf(ts)[i];
    assert ts[i].rate in multiset(ms);
    var t :| 0 <= t < |ms| && ms[t] == ts[i].rate;
    CombinationMeanSource(SelfRates(es), t);
  }

  /** With `n >= 4` estimates there are exactly `n(n-1)(n-2)(n-3)/24` rates. */
  lemma TheoreticalCount(es: seq<Estimate>)
    requires NonZeroBases(es)
    ensures 24 * |TheoreticalRates(es)| == |es| * (|es| - 1) * (|es| - 2) * (|es| - 3)
  {
    Binom4(|es|);
  }

  /**
   * One row of the estimate frame once its two columns are cast to float:
   * an amount is absent (NaN) when the item lacks the field or holds null.
   */
  datatype EstimateRow = EstimateRow(baseAmount: Option<real>, planAmount: Option<real>)

  /** Both amounts of the row are present. */
  predicate IsComplete(row: EstimateRow) {
    row.baseAmount.Some? && row.planAmount.Some?
  }

  /** The estimate a complete row holds. */
  function EstimateIn(row: EstimateRow): Estimate
    requires IsComplete(row)
  {
    Estimate(row.baseAmount.value, row.planAmount.value)
  }

  /** The row of an estimate whose amounts are both present. */
  function FullRow(e: Estimate): EstimateRow {
    EstimateRow(Some(e.baseAmount), Some(e.planAmount))
  }

  /**
   * The estimates of the complete rows, in order: exactly the estimates
   * whose self-rate is a number, the only ones whose 4-combinations give a
   * numeric mean.
   */
  function CompleteEstimates(rows: seq<EstimateRow>): (es: seq<Estimate>)
    ensures |es| <= |rows|
    ensures forall e :: e in es <==> FullRow(e) in rows
    ensures (forall i :: 0 <= i < |rows| ==> IsComplete(rows[i])) ==> |es| == |rows|
  {
    if rows == [] then []
    else
      var rest := CompleteEstimates(rows[1..]);
      assert forall r :: r in rows <==> r == rows[0] || r in rows[1..];
      if IsComplete(rows[0]) then
        assert FullRow(EstimateIn(rows[0])) == rows[0];
        [EstimateIn(rows[0])] + rest
      else rest
  }

  /** Rows that are all full give back their estimates. */
  lemma {:induction false} CompleteOfFullRows(es: seq<Estimate>)
    ensures CompleteEstimates(seq(|es|, i requires 0 <= i < |es| => FullRow(es[i]))) == es
    decreases |es|
  {
    if es != [] {
      var rows := seq(|es|, i requires 0 <= i < |es| => FullRow(es[i]));
      assert rows[1..] == seq(|es[1..]|, i requires 0 <= i < |es[1..]| => FullRow(es[1..][i]));
      CompleteOfFullRows(es[1..]);
      assert EstimateIn(rows[0]) == es[0];
      assert [es[0]] + es[1..] == es;
    }
  }

  /**
   * The reference base price: `bssamt` of the second row when there are at
   * least two, of the first when there is one; absent (NaN) when that cell
   * is, or when there are no rows.
   */
  function BasePrice(rows: seq<EstimateRow>): (p: Option<real>)
    ensures |rows| >= 2 ==> p == rows[1].baseAmount
    ensures |rows| == 1 ==> p == rows[0].baseAmount
    ensures rows == [] ==> p == None
  {
    if |rows| > 1 then rows[1].baseAmount
    else if |rows| == 1 then rows[0].baseAmount
    else None
  }
}
