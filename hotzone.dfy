/**
 * The hot zone: the window of winning rates, scanned from the lowest rate
 * upwards in fixed steps, that holds the most of them.
 */
module HotZone {
  /** No zone for an empty pool; otherwise the window `[start, end]` and how many rates it holds. */
  datatype Zone = NoHotZone | HotZone(start: real, end: real, count: nat)

  /** How many of `rates` lie in `[lo, hi]`, both ends included. */
  function CountIn(rates: seq<real>, lo: real, hi: real): (c: nat)
    ensures c <= |rates|
  {
    if rates == [] then 0
    else (if lo <= rates[0] <= hi then 1 else 0) + CountIn(rates[1..], lo, hi)
  }

  lemma {:induction false} CountInMember(rates: seq<real>, lo: real, hi: real, x: real)
    requires x in rates && lo <= x <= hi
    ensures CountIn(rates, lo, hi) >= 1
  {
    if rates[0] != x {
      CountInMember(rates[1..], lo, hi, x);
    }
  }

  function MinOf(s: seq<real>): (m: real)
    requires s != []
    ensures m in s && forall i :: 0 <= i < |s| ==> m <= s[i]
  {
    if |s| == 1 then s[0]
    else
      var m := MinOf(s[1..]);
      assert forall i :: 1 <= i < |s| ==> s[i] == s[1..][i - 1];
      if s[0] <= m then s[0] else m
  }

  function MaxOf(s: seq<real>): (m: real)
    requires s != []
    ensures m in s && forall i :: 0 <= i < |s| ==> s[i] <= m
  {
    if |s| == 1 then s[0]
    else
      var m := MaxOf(s[1..]);
      assert forall i :: 1 <= i < |s| ==> s[i] == s[1..][i - 1];
      if s[0] >= m then s[0] else m
  }

  /** The `k`-th start the scan tries: `lo + k * step`. */
  function StartAt(lo: real, step: real, k: nat): real {
    lo + k as real * step
  }

  lemma StartAtNext(lo: real, step: real, k: nat)
    ensures StartAt(lo, step, k + 1) == StartAt(lo, step, k) + step
  {
    assert (k + 1) as real * step == k as real * step + step;
  }

  /** How many starts the scan tries: every `lo + k * step` that does not pass `hi`. */
  function StartCount(lo: real, hi: real, step: real): (n: nat)
    requires step > 0.0 && lo <= hi
    ensures n >= 1
  {
    ((hi - lo) / step).Floor + 1
  }

  /** The scan tries exactly the starts up to `hi`. */
  lemma StartCountScans(lo: real, hi: real, step: real, k: nat)
    requires step > 0.0 && lo <= hi
    ensures k < StartCount(lo, hi, step) <==> StartAt(lo, step, k) <= hi
  {
    var q := (hi - lo) / step;
    assert q * step == hi - lo;
    if k as real <= q {
      assert k as real * step <= q * step;
    } else {
      assert k as real * step > q * step;
    }
  }

  /** How many rates the window at the `k`-th start holds. */
  function WindowCount(rates: seq<real>, window: real, step: real, k: nat): nat
    requires rates != []
  {
    var s := StartAt(MinOf(rates), step, k);
    CountIn(rates, s, s + window)
  }

  /** The first of the starts `0..n-1` whose window holds the most rates. */
  function BestIndex(rates: seq<real>, window: real, step: real, n: nat): (b: nat)
    requires rates != [] && n >= 1
    ensures b < n
    ensures forall k :: 0 <= k < n ==> WindowCount(rates, window, step, k) <= WindowCount(rates, window, step, b)
    ensures forall k :: 0 <= k < b ==> WindowCount(rates, window, step, k) < WindowCount(rates, window, step, b)
  {
    if n == 1 then 0
    else
      var b := BestIndex(rates, window, step, n - 1);
      if WindowCount(rates, window, step, n - 1) > WindowCount(rates, window, step, b) then n - 1 else b
  }

  /** The hot zone of a pool of winning rates, scanning windows of width `window` every `step`. */
  function HotZoneOf(rates: seq<real>, window: real, step: real): (z: Zone)
    requires step > 0.0
    ensures z.NoHotZone? <==> rates == []
  {
    if rates == [] then NoHotZone
    else
      var lo := MinOf(rates);
      var b := BestIndex(rates, window, step, StartCount(lo, MaxOf(rates), step));
      HotZone(StartAt(lo, step, b), StartAt(lo, step, b) + window, WindowCount(rates, window, step, b))
  }

  /**
   * `z` is a window the scan tries, none of the tried windows holds more
   * rates, and every earlier one holds fewer.
   */
  predicate IsHotZone(rates: seq<real>, window: real, step: real, z: Zone)
    requires step > 0.0 && rates != []
  {
    var n := StartCount(MinOf(rates), MaxOf(rates), step);
    exists k :: 0 <= k < n
      && z == HotZone(StartAt(MinOf(rates), step, k), StartAt(MinOf(rates), step, k) + window,
                      WindowCount(rates, window, step, k))
      && (forall j :: 0 <= j < n ==> WindowCount(rates, window, step, j) <= WindowCount(rates, window, step, k))
      && (forall j :: 0 <= j < k ==> WindowCount(rates, window, step, j) < WindowCount(rates, window, step, k))
  }

  /** The hot zone is the first fullest window, and the only one. */
  lemma HotZoneIsFirstFullest(rates: seq<real>, window: real, step: real, z: Zone)
    requires step > 0.0 && rates != []
    ensures IsHotZone(rates, window, step, HotZoneOf(rates, window, step))
    ensures IsHotZone(rates, window, step, z) ==> z == HotZoneOf(rates, window, step)
  {
    var n := StartCount(MinOf(rates), MaxOf(rates), step);
    var b := BestIndex(rates, window, step, n);
    if IsHotZone(rates, window, step, z) {
      var k :| 0 <= k < n
        && z == HotZone(StartAt(MinOf(rates), step, k), StartAt(MinOf(rates), step, k) + window,
                        WindowCount(rates, window, step, k))
        && (forall j :: 0 <= j < n ==> WindowCount(rates, window, step, j) <= WindowCount(rates, window, step, k))
        && (forall j :: 0 <= j < k ==> WindowCount(rates, window, step, j) < WindowCount(rates, window, step, k));
      assert k == b;
    }
  }

  /** The zone starts at a tried start, between the lowest and highest rate, and spans `window`. */
  lemma HotZoneBounds(rates: seq<real>, window: real, step: real)
    requires step > 0.0 && rates != []
    ensures MinOf(rates) <= HotZoneOf(rates, window, step).start <= MaxOf(rates)
    ensures HotZoneOf(rates, window, step).end == HotZoneOf(rates, window, step).start + window
  {
    var n := StartCount(MinOf(rates), MaxOf(rates), step);
    var b := BestIndex(rates, window, step, n);
    StartCountScans(MinOf(rates), MaxOf(rates), step, b);
  }

  /** With a non-negative window the zone holds at least one rate: the lowest. */
  lemma HotZoneNonEmpty(rates: seq<real>, window: real, step: real)
    requires step > 0.0 && rates != [] && window >= 0.0
    ensures HotZoneOf(rates, window, step).count >= 1
  {
    var lo := MinOf(rates);
    CountInMember(rates, lo, lo + window, lo);
    assert StartAt(lo, step, 0) == lo;
    assert WindowCount(rates, window, step, 0) >= 1;
  }

  /** A single rate is its own hot zone. */
  lemma HotZoneSingleton(x: real, window: real, step: real)
    requires step > 0.0 && window >= 0.0
    ensures HotZoneOf([x], window, step) == HotZone(x, x + window, 1)
  {
    assert StartCount(x, x, step) == 1;
    assert StartAt(x, step, 0) == x;
  }

  /**
   * `find_hot_zone`: try every start from the lowest rate up to the highest
   * in steps of `step`, and keep the first window `[start, start + window]`
   * holding the most rates.
   */
  method FindHotZone(rates: seq<real>, window: real, step: real) returns (z: Zone)
    requires step > 0.0
    ensures z == HotZoneOf(rates, window, step)
    ensures rates != [] ==> IsHotZone(rates, window, step, z)
  {
    if rates == [] {
      return NoHotZone;
    }
    var lo, hi := MinOf(rates), MaxOf(rates);
    ghost var n := StartCount(lo, hi, step);
    var bestStart: real := 0.0;
    var bestEnd: real := 0.0;
    var bestCount: int := -1;
    var start := lo;
    ghost var k: nat := 0;
    StartCountScans(lo, hi, step, 0);
    while start <= hi
      invariant k <= n
      invariant start == StartAt(lo, step, k)
      invariant start <= hi <==> k < n
      invariant k == 0 <==> bestCount == -1
      invariant k > 0 ==>
        var b := BestIndex(rates, window, step, k);
        bestStart == StartAt(lo, step, b) && bestEnd == bestStart + window
        && bestCount == WindowCount(rates, window, step, b)
      decreases n - k
    {
      var end := start + window;
      var count := CountIn(rates, start, end);
      assert count == WindowCount(rates, window, step, k);
      if count > bestCount {
        bestCount := count;
        bestStart, bestEnd := start, end;
      }
      StartAtNext(lo, step, k);
      start := start + step;
      k := k + 1;
      StartCountScans(lo, hi, step, k);
    }
    assert k == n;
    z := HotZone(bestStart, bestEnd, bestCount);
    HotZoneIsFirstFullest(rates, window, step, z);
  }
}
