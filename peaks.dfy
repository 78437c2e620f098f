/**
 * A deterministic re-specification of the peak finder the detector calls
 * (SciPy's find_peaks with `height` and `distance`):
 *   1. scan for local maxima, a flat top counting once at its middle sample;
 *   2. keep those whose value is at least the height;
 *   3. thin them out greedily, highest first (ties: earlier index first),
 *      dropping every remaining candidate closer than `d` samples to a kept one.
 * The result lists the kept candidates in ascending index order.
 */
module Peaks {
  import opened Common

  /** `p` is an interior sample no lower than either neighbour. */
  predicate IsLocalMax(x: seq<real>, p: int) {
    1 <= p < |x| - 1 && x[p - 1] <= x[p] && x[p + 1] <= x[p]
  }

  /** `p` is an interior sample strictly higher than both neighbours. */
  predicate IsStrictLocalMax(x: seq<real>, p: int) {
    1 <= p < |x| - 1 && x[p - 1] < x[p] && x[p + 1] < x[p]
  }

  /** Every entry of `c` indexes `x`. */
  predicate Indexes(x: seq<real>, c: seq<int>) {
    forall k :: 0 <= k < |c| ==> 0 <= c[k] < |x|
  }

  /** A sequence drawn from the entries of an index sequence is an index sequence. */
  lemma IndexesFrom(x: seq<real>, c: seq<int>, r: seq<int>)
    requires Indexes(x, c)
    requires forall p :: p in r ==> p in c
    ensures Indexes(x, r)
  {
    forall k | 0 <= k < |r| ensures 0 <= r[k] < |x| {
      assert r[k] in r;
    }
  }

  /**
   * End of the flat run starting at `i`: the first later sample that differs
   * from x[i], or the last sample.
   */
  function PlateauEnd(x: seq<real>, i: nat): (a: nat)
    requires 1 <= i < |x| - 1
    ensures i < a <= |x| - 1
    decreases |x| - i
  {
    if i + 1 == |x| - 1 || x[i + 1] != x[i] then i + 1 else PlateauEnd(x, i + 1)
  }

  /** The run from `i` up to its end is flat, and it ends at a different sample unless it reaches the last one. */
  lemma {:induction false} PlateauFlat(x: seq<real>, i: nat)
    requires 1 <= i < |x| - 1
    ensures forall k :: i <= k < PlateauEnd(x, i) ==> x[k] == x[i]
    ensures PlateauEnd(x, i) < |x| - 1 ==> x[PlateauEnd(x, i)] != x[i]
    decreases |x| - i
  {
    if !(i + 1 == |x| - 1 || x[i + 1] != x[i]) {
      PlateauFlat(x, i + 1);
    }
  }

  /** The middle sample of the run from `lo` to `hi` (inclusive), rounded down. */
  function Middle(lo: int, hi: int): (m: int)
    requires lo <= hi
    ensures lo <= m <= hi
    decreases hi - lo
  {
    if hi - lo < 2 then lo else Middle(lo + 1, hi - 1)
  }

  /** The middle is `(lo + hi) // 2`, the midpoint the peak finder reports for a flat top. */
  lemma {:induction false} MiddleIsMean(lo: int, hi: int)
    requires lo <= hi
    ensures 2 * Middle(lo, hi) <= lo + hi <= 2 * Middle(lo, hi) + 1
    decreases hi - lo
  {
    if hi - lo >= 2 {
      MiddleIsMean(lo + 1, hi - 1);
    }
  }

  /** The flat run starting at `i` is entered by a rise and left by a fall. */
  predicate RunPeak(x: seq<real>, i: nat)
    requires 1 <= i < |x| - 1
  {
    x[i - 1] < x[i] && x[PlateauEnd(x, i)] < x[i]
  }

  /**
   * Local maxima of `x` at or after index `i`: a rise into a flat run that is
   * followed by a fall yields the middle (rounded down) of the run.
   */
  function LocalMaxima(x: seq<real>, i: nat): seq<int>
    requires 1 <= i
    decreases |x| - i
  {
    if i + 1 >= |x| then []
    else if RunPeak(x, i) then [Middle(i, PlateauEnd(x, i) - 1)] + LocalMaxima(x, PlateauEnd(x, i) + 1)
    else LocalMaxima(x, i + 1)
  }

  /** The middle of a run entered by a rise and left by a fall is a local maximum. */
  lemma RunMiddleIsMax(x: seq<real>, i: nat)
    requires 1 <= i && i + 1 < |x| && RunPeak(x, i)
    ensures IsLocalMax(x, Middle(i, PlateauEnd(x, i) - 1))
  {
    var a := PlateauEnd(x, i);
    var m := Middle(i, a - 1);
    PlateauFlat(x, i);
    assert x[m] == x[i];
    if m > i { assert x[m - 1] == x[i]; }
    if m + 1 < a { assert x[m + 1] == x[i]; }
  }

  /** One step of the scan: a rise into a run that then falls yields the run's middle and resumes after the run. */
  lemma LocalMaximaStep(x: seq<real>, i: nat)
    requires 1 <= i && i + 1 < |x|
    ensures RunPeak(x, i) ==>
              LocalMaxima(x, i) == [Middle(i, PlateauEnd(x, i) - 1)] + LocalMaxima(x, PlateauEnd(x, i) + 1)
    ensures !RunPeak(x, i) ==> LocalMaxima(x, i) == LocalMaxima(x, i + 1)
  {
  }

  /** The scan from `i` yields only samples at or after `i`. */
  lemma {:induction false} LocalMaximaAfter(x: seq<real>, i: nat)
    requires 1 <= i
    ensures forall p :: p in LocalMaxima(x, i) ==> i <= p
    decreases |x| - i
  {
    if i + 1 < |x| {
      LocalMaximaStep(x, i);
      if RunPeak(x, i) {
        LocalMaximaAfter(x, PlateauEnd(x, i) + 1);
      } else {
        LocalMaximaAfter(x, i + 1);
      }
    }
  }

  /** The scan yields only local maxima. */
  lemma {:induction false} LocalMaximaAreMax(x: seq<real>, i: nat)
    requires 1 <= i
    ensures forall p :: p in LocalMaxima(x, i) ==> IsLocalMax(x, p)
    decreases |x| - i
  {
    if i + 1 < |x| {
      LocalMaximaStep(x, i);
      if RunPeak(x, i) {
        LocalMaximaAreMax(x, PlateauEnd(x, i) + 1);
        RunMiddleIsMax(x, i);
      } else {
        LocalMaximaAreMax(x, i + 1);
      }
    }
  }

  /** The local maxima found by the scan are ascending and at least two samples apart. */
  lemma {:induction false} LocalMaximaSpaced(x: seq<real>, i: nat)
    requires 1 <= i
    ensures Spaced(LocalMaxima(x, i), 2)
    decreases |x| - i
  {
    if i + 1 < |x| {
      LocalMaximaStep(x, i);
      var a := PlateauEnd(x, i);
      if RunPeak(x, i) {
        LocalMaximaSpaced(x, a + 1);
        LocalMaximaAfter(x, a + 1);
        SpacedCons(Middle(i, a - 1), LocalMaxima(x, a + 1), 2);
      } else {
        LocalMaximaSpaced(x, i + 1);
      }
    }
  }

  /** A flat run starting at or before a strict maximum `k` ends at `k + 1` if it starts there, and by `k` otherwise. */
  lemma PlateauBeforeStrictMax(x: seq<real>, i: nat, k: int)
    requires 1 <= i <= k && IsStrictLocalMax(x, k)
    ensures k == i ==> PlateauEnd(x, i) == i + 1
    ensures i < k ==> PlateauEnd(x, i) <= k
    ensures i < k && x[PlateauEnd(x, i)] < x[i] ==> PlateauEnd(x, i) < k
  {
    var a := PlateauEnd(x, i);
    PlateauFlat(x, i);
    if i < k && a == k {
      assert x[k - 1] == x[i];
    }
  }

  /** Every strict local maximum at or after `i` is found by the scan. */
  lemma {:induction false} StrictMaxIsFound(x: seq<real>, i: nat, k: int)
    requires 1 <= i <= k && IsStrictLocalMax(x, k)
    ensures k in LocalMaxima(x, i)
    decreases |x| - i
  {
    PlateauBeforeStrictMax(x, i, k);
    LocalMaximaStep(x, i);
    var a := PlateauEnd(x, i);
    if RunPeak(x, i) {
      if k != i {
        StrictMaxIsFound(x, a + 1, k);
      }
    } else {
      StrictMaxIsFound(x, i + 1, k);
    }
  }

  /** The candidates of `c` whose value reaches the height `h`, in order. */
  function AtLeast(x: seq<real>, c: seq<int>, h: real): (r: seq<int>)
    requires Indexes(x, c)
    ensures forall p :: p in r <==> p in c && x[p] >= h
  {
    if c == [] then []
    else if x[c[0]] < h then AtLeast(x, c[1..], h)
    else [c[0]] + AtLeast(x, c[1..], h)
  }

  /** Filtering by height keeps candidates at least two samples apart. */
  lemma {:induction false} AtLeastSpaced(x: seq<real>, c: seq<int>, h: real)
    requires Indexes(x, c) && Spaced(c, 2)
    ensures Spaced(AtLeast(x, c, h), 2)
  {
    if c != [] {
      SpacedHead(c, 2);
      AtLeastSpaced(x, c[1..], h);
      if x[c[0]] >= h {
        SpacedCons(c[0], AtLeast(x, c[1..], h), 2);
      }
    }
  }

  /** Position in `c` of its highest candidate, the earliest one on ties. */
  function BestAt(x: seq<real>, c: seq<int>): (j: nat)
    requires |c| > 0 && Indexes(x, c)
    ensures j < |c|
    ensures forall k :: 0 <= k < |c| ==> x[c[k]] <= x[c[j]]
    ensures forall k :: 0 <= k < j ==> x[c[k]] < x[c[j]]
  {
    if |c| == 1 then 0
    else
      var j := BestAt(x, c[1..]);
      if x[c[0]] >= x[c[1 + j]] then 0 else 1 + j
  }

  /** The candidates of `c` at least `d` samples away from `p`, in order. */
  function Far(c: seq<int>, p: int, d: int): (r: seq<int>)
    ensures forall q :: q in r <==> q in c && (q - p >= d || p - q >= d)
    ensures |r| <= |c|
    ensures d >= 1 && p in c ==> |r| < |c|
  {
    if c == [] then []
    else
      var rest := Far(c[1..], p, d);
      if c[0] - p >= d || p - c[0] >= d then [c[0]] + rest else rest
  }

  /**
   * Greedy thinning: keep the highest remaining candidate, drop every
   * candidate closer than `d` to it, repeat on what is left.
   */
  function Separate(x: seq<real>, c: seq<int>, d: int): (kept: set<int>)
    requires d >= 1 && Indexes(x, c)
    ensures forall p :: p in kept ==> p in c
    decreases |c|
  {
    if c == [] then {}
    else
      var p := c[BestAt(x, c)];
      IndexesFrom(x, c, Far(c, p, d));
      {p} + Separate(x, Far(c, p, d), d)
  }

  /** Two different kept candidates are at least `d` samples apart. */
  lemma {:induction false} SeparateApart(x: seq<real>, c: seq<int>, d: int, p: int, q: int)
    requires d >= 1 && Indexes(x, c)
    requires p in Separate(x, c, d) && q in Separate(x, c, d) && p != q
    ensures p - q >= d || q - p >= d
    decreases |c|
  {
    var b := c[BestAt(x, c)];
    var rest := Far(c, b, d);
    IndexesFrom(x, c, rest);
    if p != b && q != b {
      SeparateApart(x, rest, d, p, q);
    }
  }

  /**
   * A candidate is dropped only because a kept candidate at least as high
   * lies closer than `d` samples to it.
   */
  lemma {:induction false} SeparateDominates(x: seq<real>, c: seq<int>, d: int, q: int) returns (p: int)
    requires d >= 1 && Indexes(x, c)
    requires q in c && q !in Separate(x, c, d)
    ensures p in Separate(x, c, d) && -d < p - q < d && x[q] <= x[p]
    decreases |c|
  {
    var j := BestAt(x, c);
    var b := c[j];
    var rest := Far(c, b, d);
    IndexesFrom(x, c, rest);
    assert Separate(x, c, d) == {b} + Separate(x, rest, d);
    if q in rest {
      p := SeparateDominates(x, rest, d, q);
    } else {
      var k :| 0 <= k < |c| && c[k] == q;
      assert x[c[k]] <= x[c[j]];
      p := b;
    }
  }

  /** The candidates of `c` that belong to `keep`, in order. */
  function Keep(c: seq<int>, keep: set<int>): (r: seq<int>)
    ensures forall q :: q in r <==> q in c && q in keep
  {
    if c == [] then []
    else if c[0] !in keep then Keep(c[1..], keep)
    else [c[0]] + Keep(c[1..], keep)
  }

  /** Filtering by a set keeps a spaced sequence spaced. */
  lemma {:induction false} KeepSpaced(c: seq<int>, keep: set<int>, g: int)
    requires Spaced(c, g)
    ensures Spaced(Keep(c, keep), g)
  {
    if c != [] {
      SpacedHead(c, g);
      KeepSpaced(c[1..], keep, g);
      if c[0] in keep {
        SpacedCons(c[0], Keep(c[1..], keep), g);
      }
    }
  }

  /** Local maxima of `x` whose value reaches `h`: the candidates for thinning. */
  function Candidates(x: seq<real>, h: real): (c: seq<int>)
    ensures Indexes(x, c) && Spaced(c, 2)
    ensures forall p :: p in c ==> IsLocalMax(x, p) && x[p] >= h
  {
    var m := LocalMaxima(x, 1);
    LocalMaximaAfter(x, 1);
    LocalMaximaAreMax(x, 1);
    LocalMaximaSpaced(x, 1);
    assert Indexes(x, m) by {
      forall k | 0 <= k < |m| ensures 0 <= m[k] < |x| {
        assert m[k] in m;
      }
    }
    var r := AtLeast(x, m, h);
    IndexesFrom(x, m, r);
    AtLeastSpaced(x, m, h);
    r
  }

  /** find_peaks(x, height=h, distance=d). */
  function FindPeaks(x: seq<real>, h: real, d: int): (r: seq<int>)
    requires d >= 1
  {
    var c := Candidates(x, h);
    Keep(c, Separate(x, c, d))
  }

  /**
   * Soundness of the picker: every peak is an interior local maximum whose
   * value reaches the height, and peaks are ascending and pairwise at least
   * `d` (and at least 2) samples apart.
   */
  lemma PeaksSound(x: seq<real>, h: real, d: int)
    requires d >= 1
    ensures forall k :: 0 <= k < |FindPeaks(x, h, d)| ==>
              IsLocalMax(x, FindPeaks(x, h, d)[k]) && x[FindPeaks(x, h, d)[k]] >= h
    ensures Spaced(FindPeaks(x, h, d), 2) && Spaced(FindPeaks(x, h, d), d)
  {
    var c := Candidates(x, h);
    var kept := Separate(x, c, d);
    var r := FindPeaks(x, h, d);
    KeepSpaced(c, kept, 2);
    forall i, j | 0 <= i < j < |r| ensures r[i] + d <= r[j] {
      assert r[i] in kept && r[j] in kept;
      SeparateApart(x, c, d, r[i], r[j]);
    }
  }

  /**
   * Maximality of the picker: a local maximum reaching the height is either a
   * peak or lies closer than `d` samples to a peak at least as high.
   */
  lemma PeaksMaximal(x: seq<real>, h: real, d: int, q: int)
    requires d >= 1 && q in Candidates(x, h)
    ensures q in FindPeaks(x, h, d)
            || exists p :: p in FindPeaks(x, h, d) && -d < p - q < d && x[q] <= x[p]
  {
    var c := Candidates(x, h);
    if q !in Separate(x, c, d) {
      var p := SeparateDominates(x, c, d, q);
      assert p in FindPeaks(x, h, d);
    }
  }

  /** No peak is found exactly when no local maximum reaches the height. */
  lemma PeaksEmptyIff(x: seq<real>, h: real, d: int)
    requires d >= 1
    ensures FindPeaks(x, h, d) == [] <==> Candidates(x, h) == []
  {
    var c := Candidates(x, h);
    if c != [] {
      PeaksMaximal(x, h, d, c[0]);
    }
  }

  /** A strict local maximum reaching the height guarantees at least one peak. */
  lemma StrictMaxGivesPeak(x: seq<real>, h: real, d: int, k: int)
    requires d >= 1 && IsStrictLocalMax(x, k) && x[k] >= h
    ensures FindPeaks(x, h, d) != []
  {
    StrictMaxIsFound(x, 1, k);
    assert k in Candidates(x, h);
    PeaksEmptyIff(x, h, d);
  }

  /** Distinct entries of `c` are at least `d` apart. */
  predicate Apart(c: seq<int>, d: int) {
    forall p, q :: p in c && q in c && p != q ==> p - q >= d || q - p >= d
  }

  /** When the candidates are already `d` apart, distance thinning keeps all of them. */
  lemma {:induction false} SeparateKeepsApart(x: seq<real>, c: seq<int>, d: int)
    requires d >= 1 && Indexes(x, c) && Apart(c, d)
    ensures forall q :: q in c ==> q in Separate(x, c, d)
    decreases |c|
  {
    if c != [] {
      var p := c[BestAt(x, c)];
      var rest := Far(c, p, d);
      IndexesFrom(x, c, rest);
      SeparateKeepsApart(x, rest, d);
    }
  }

  /** Filtering by a set that holds every entry changes nothing. */
  lemma {:induction false} KeepAll(c: seq<int>, keep: set<int>)
    requires forall k :: 0 <= k < |c| ==> c[k] in keep
    ensures Keep(c, keep) == c
  {
    if c != [] {
      var rest := c[1..];
      assert forall k :: 0 <= k < |rest| ==> rest[k] == c[k + 1];
      KeepAll(rest, keep);
      assert c[0] in keep;
      assert Keep(c, keep) == [c[0]] + Keep(rest, keep);
      assert c == [c[0]] + rest;
    }
  }

  /**
   * Local maxima are always at least two samples apart, so a minimum
   * distance of one or two samples never removes a candidate.
   */
  lemma PeaksCloseDistance(x: seq<real>, h: real, d: int)
    requires 1 <= d <= 2
    ensures FindPeaks(x, h, d) == Candidates(x, h)
  {
    var c := Candidates(x, h);
    forall p, q | p in c && q in c && p != q ensures p - q >= d || q - p >= d {
      var i :| 0 <= i < |c| && c[i] == p;
      var j :| 0 <= j < |c| && c[j] == q;
      assert i != j;
    }
    SeparateKeepsApart(x, c, d);
    forall k | 0 <= k < |c| ensures c[k] in Separate(x, c, d) {
      assert c[k] in c;
    }
    KeepAll(c, Separate(x, c, d));
  }
}
