/**
 * Reconstructing each bidder's assessment rate from its bid amount, and the
 * display set of bid rates an announcement contributes to its table.
 */
module Reconstruct {
  import opened Wrappers
  import opened Json
  import opened Sequences

  /** A bid row whose `bidprcAmt` parsed as a number; `name` is its `prcbdrNm` cell, `None` when absent. */
  datatype Bid = Bid(amount: real, name: Option<Json>)

  /** A bid with its reconstructed rate. */
  datatype RatedBid = RatedBid(name: Option<Json>, rate: real)

  /** Both the lower-limit rate and the base price are positive, so rates can be reconstructed. */
  predicate Reconstructible(sucs: real, base: real) {
    sucs > 0.0 && base > 0.0
  }

  /**
   * The assessment rate of a bid of `amount` under A value `a`, lower-limit
   * rate `sucs` and base price `base`: `((amount - a) * 100 / sucs + a) * 100 / base`;
   * the sentinel `0` when `sucs` or `base` is not positive.
   */
  function BidRate(amount: real, a: real, sucs: real, base: real): real {
    if Reconstructible(sucs, base) then ((amount - a) * 100.0 / sucs + a) * 100.0 / base else 0.0
  }

  /** The bid amount that reconstructs to `rate`: the inverse of the formula. */
  function BidAmount(rate: real, a: real, sucs: real, base: real): real
    requires Reconstructible(sucs, base)
  {
    (rate * base / 100.0 - a) * sucs / 100.0 + a
  }

  /** Reconstructing a rate and converting it back gives the bid amount. */
  lemma RateAmountRoundTrip(amount: real, a: real, sucs: real, base: real)
    requires Reconstructible(sucs, base)
    ensures BidAmount(BidRate(amount, a, sucs, base), a, sucs, base) == amount
  {
    var x := (amount - a) * 100.0 / sucs + a;
    assert BidRate(amount, a, sucs, base) == x * 100.0 / base;
    assert x * 100.0 / base * base / 100.0 == x;
    assert (x - a) * sucs / 100.0 == amount - a;
  }

  /** Converting a rate to an amount and reconstructing gives the rate back. */
  lemma AmountRateRoundTrip(rate: real, a: real, sucs: real, base: real)
    requires Reconstructible(sucs, base)
    ensures BidRate(BidAmount(rate, a, sucs, base), a, sucs, base) == rate
  {
    var y := rate * base / 100.0;
    assert BidAmount(rate, a, sucs, base) == (y - a) * sucs / 100.0 + a;
    assert ((y - a) * sucs / 100.0 + a - a) * 100.0 / sucs == y - a;
    assert y * 100.0 / base == rate;
  }

  /** A lower bid reconstructs to a strictly lower rate. */
  lemma BidRateIncreasing(b1: real, b2: real, a: real, sucs: real, base: real)
    requires Reconstructible(sucs, base) && b1 < b2
    ensures BidRate(b1, a, sucs, base) < BidRate(b2, a, sucs, base)
  {
    var x1 := (b1 - a) * 100.0 / sucs + a;
    var x2 := (b2 - a) * 100.0 / sucs + a;
    assert (b1 - a) * 100.0 < (b2 - a) * 100.0;
    DivPositiveMonotone((b1 - a) * 100.0, (b2 - a) * 100.0, sucs);
    assert x1 < x2;
    DivPositiveMonotone(x1 * 100.0, x2 * 100.0, base);
  }

  lemma DivPositiveMonotone(x: real, y: real, d: real)
    requires x < y && d > 0.0
    ensures x / d < y / d
  {
    assert (y - x) / d > 0.0;
    assert y / d - x / d == (y - x) / d;
  }

  /** Every bid, in order, with its reconstructed rate. */
  function RateBids(bids: seq<Bid>, a: real, sucs: real, base: real): (rs: seq<RatedBid>)
    ensures |rs| == |bids|
    ensures forall i :: 0 <= i < |bids| ==> rs[i].name == bids[i].name
    ensures forall i :: 0 <= i < |bids| ==> rs[i].rate == BidRate(bids[i].amount, a, sucs, base)
  {
    seq(|bids|, i requires 0 <= i < |bids| => RatedBid(bids[i].name, BidRate(bids[i].amount, a, sucs, base)))
  }

  /** Without a positive lower-limit rate and base price every bid gets the sentinel rate 0. */
  lemma SentinelRates(bids: seq<Bid>, a: real, sucs: real, base: real)
    requires !Reconstructible(sucs, base)
    ensures forall i :: 0 <= i < |bids| ==> RateBids(bids, a, sucs, base)[i].rate == 0.0
  {
  }

  /** With a positive lower-limit rate and base price, distinct bids get distinct rates. */
  lemma DistinctBidsDistinctRates(bids: seq<Bid>, a: real, sucs: real, base: real, i: nat, j: nat)
    requires Reconstructible(sucs, base) && i < |bids| && j < |bids|
    requires bids[i].amount != bids[j].amount
    ensures RateBids(bids, a, sucs, base)[i].rate != RateBids(bids, a, sucs, base)[j].rate
  {
    if bids[i].amount < bids[j].amount {
      BidRateIncreasing(bids[i].amount, bids[j].amount, a, sucs, base);
    } else {
      BidRateIncreasing(bids[j].amount, bids[i].amount, a, sucs, base);
    }
  }

  function RateOf(r: RatedBid): real {
    r.rate
  }

  /** `bidder_rates_all`: one rate per bid, in order, duplicates kept. */
  function BidderRates(rated: seq<RatedBid>): (rs: seq<real>)
    ensures |rs| == |rated|
    ensures forall i :: 0 <= i < |rated| ==> rs[i] == rated[i].rate
  {
    seq(|rated|, i requires 0 <= i < |rated| => rated[i].rate)
  }

  /** The band of plausible assessment rates, `90 <= rate <= 110`. */
  predicate InBand(x: real) {
    90.0 <= x <= 110.0
  }

  /** The rows whose rate is in the band, in order. */
  function Band(rs: seq<RatedBid>): (r: seq<RatedBid>)
    ensures forall i :: 0 <= i < |r| ==> InBand(r[i].rate) && r[i] in rs
    ensures forall x :: x in rs && InBand(x.rate) ==> x in r
    ensures |r| <= |rs|
  {
    if rs == [] then []
    else if InBand(rs[0].rate) then [rs[0]] + Band(rs[1..])
    else Band(rs[1..])
  }

  lemma {:induction false} BandKeepsDistinct(rs: seq<RatedBid>)
    requires forall i, j :: 0 <= i < j < |rs| ==> RateOf(rs[i]) != RateOf(rs[j])
    ensures forall i, j :: 0 <= i < j < |Band(rs)| ==> Band(rs)[i].rate != Band(rs)[j].rate
    decreases |rs|
  {
    if rs != [] {
      BandKeepsDistinct(rs[1..]);
      if InBand(rs[0].rate) {
        var b := Band(rs[1..]);
        forall j | 0 <= j < |b| ensures rs[0].rate != b[j].rate {
          var n :| 0 <= n < |rs[1..]| && rs[1..][n] == b[j];
          assert RateOf(rs[0]) != RateOf(rs[n + 1]);
        }
      }
    }
  }

  /** The band filter and first-occurrence deduplication by rate commute. */
  lemma {:induction false} BandDedupCommute(s: seq<RatedBid>, seen: set<real>)
    ensures Band(DedupBy(s, RateOf, seen)) == DedupBy(Band(s), RateOf, seen)
    decreases |s|
  {
    if s != [] {
      if RateOf(s[0]) in seen {
        BandDedupCommute(s[1..], seen);
        if InBand(s[0].rate) {
          assert Band(s) == [s[0]] + Band(s[1..]);
          assert ([s[0]] + Band(s[1..]))[1..] == Band(s[1..]);
        }
      } else {
        BandDedupCommute(s[1..], seen + {RateOf(s[0])});
        var t := DedupBy(s[1..], RateOf, seen + {RateOf(s[0])});
        assert DedupBy(s, RateOf, seen) == [s[0]] + t;
        assert ([s[0]] + t)[1..] == t;
        if InBand(s[0].rate) {
          assert Band(s) == [s[0]] + Band(s[1..]);
          assert ([s[0]] + Band(s[1..]))[1..] == Band(s[1..]);
        } else {
          assert Band(s) == Band(s[1..]);
          // the dropped first row's rate is out of band, so no later in-band row has it
          DedupOutsideSeen(Band(s[1..]), seen, RateOf(s[0]));
        }
      }
    }
  }

  /** Adding to `seen` a key no element has changes nothing. */
  lemma {:induction false} DedupOutsideSeen(s: seq<RatedBid>, seen: set<real>, k: real)
    requires forall i :: 0 <= i < |s| ==> InBand(s[i].rate)
    requires !InBand(k)
    ensures DedupBy(s, RateOf, seen + {k}) == DedupBy(s, RateOf, seen)
    decreases |s|
  {
    if s != [] {
      if RateOf(s[0]) in seen {
        DedupOutsideSeen(s[1..], seen, k);
      } else {
        assert seen + {k} + {RateOf(s[0])} == seen + {RateOf(s[0])} + {k};
        DedupOutsideSeen(s[1..], seen + {RateOf(s[0])}, k);
      }
    }
  }

  /**
   * Each row deduplication keeps is the first row of `s` with its rate: no
   * earlier row shares it.
   */
  lemma {:induction false} DedupKeepsFirst(s: seq<RatedBid>, seen: set<real>, k: nat)
    requires k < |DedupBy(s, RateOf, seen)|
    ensures exists i :: (0 <= i < |s| && s[i] == DedupBy(s, RateOf, seen)[k]
                         && forall j :: 0 <= j < i ==> s[j].rate != s[i].rate)
    decreases |s|
  {
    var r := DedupBy(s, RateOf, seen);
    if RateOf(s[0]) in seen {
      DedupKeepsFirst(s[1..], seen, k);
      var i :| 0 <= i < |s[1..]| && s[1..][i] == r[k] && forall j :: 0 <= j < i ==> s[1..][j].rate != s[1..][i].rate;
      assert s[i + 1] == r[k];
      // r[k]'s rate is not in `seen`, and s[0]'s is
      assert s[0].rate != r[k].rate;
      forall j | 0 <= j < i + 1 ensures s[j].rate != s[i + 1].rate {
        if j > 0 {
          assert s[j] == s[1..][j - 1];
        }
      }
    } else if k == 0 {
      assert s[0] == r[0];
    } else {
      var t := DedupBy(s[1..], RateOf, seen + {RateOf(s[0])});
      assert r == [s[0]] + t && r[k] == t[k - 1];
      DedupKeepsFirst(s[1..], seen + {RateOf(s[0])}, k - 1);
      var i :| 0 <= i < |s[1..]| && s[1..][i] == t[k - 1] && forall j :: 0 <= j < i ==> s[1..][j].rate != s[1..][i].rate;
      assert s[i + 1] == r[k];
      assert RateOf(t[k - 1]) !in seen + {RateOf(s[0])};
      forall j | 0 <= j < i + 1 ensures s[j].rate != s[i + 1].rate {
        if j > 0 {
          assert s[j] == s[1..][j - 1];
        }
      }
    }
  }

  /**
   * The rows an announcement shows for its bids: the first row of each
   * rate, then only rates in the band, in order.
   */
  function DisplaySet(rated: seq<RatedBid>): (d: seq<RatedBid>)
    ensures forall i, j :: 0 <= i < j < |d| ==> d[i].rate != d[j].rate
    ensures forall i :: 0 <= i < |d| ==> InBand(d[i].rate) && d[i] in rated
    ensures forall x :: x in rated && InBand(x.rate) ==> exists i :: 0 <= i < |d| && d[i].rate == x.rate
  {
    var u := DedupBy(rated, RateOf, {});
    var d := Band(u);
    assert forall i :: 0 <= i < |d| ==> d[i] in u;
    BandKeepsDistinct(u);
    forall x | x in rated && InBand(x.rate) ensures exists i :: 0 <= i < |d| && d[i].rate == x.rate {
      var n :| 0 <= n < |rated| && rated[n] == x;
      assert RateOf(rated[n]) in Keys(rated, RateOf);
      assert x.rate in Keys(u, RateOf);
      var m :| 0 <= m < |u| && RateOf(u[m]) == x.rate;
      assert u[m] in d;
    }
    d
  }

  /** Every row of the display set is the first bid at its rate. */
  lemma DisplaySetKeepsFirst(rated: seq<RatedBid>, k: nat)
    requires k < |DisplaySet(rated)|
    ensures exists i :: (0 <= i < |rated| && rated[i] == DisplaySet(rated)[k]
                         && forall j :: 0 <= j < i ==> rated[j].rate != rated[i].rate)
  {
    var u := DedupBy(rated, RateOf, {});
    BandDedupCommute(rated, {});
    var b := Band(rated);
    assert DisplaySet(rated) == DedupBy(b, RateOf, {});
    var x := DisplaySet(rated)[k];
    assert x in u;
    var m :| 0 <= m < |u| && u[m] == x;
    DedupKeepsFirst(rated, {}, m);
  }
}
