/**
 * Cycle boundary detection (`detect_cycles`): validate the signal and
 * pattern names, pick the analysed series, convert the minimum distance from
 * seconds to samples, collect peaks and/or the midpoints between consecutive
 * peaks, merge them in ascending order, fail when nothing was found, and
 * bracket the result with the first and last sample index.
 */
module Detection {
  import opened Wrappers
  import opened Common
  import Peaks

  /** Which boundaries a detection contributes. */
  datatype Pattern = OnPeak | BetweenPeak | Both {
    function Name(): string {
      match this
      case OnPeak => "on_peak"
      case BetweenPeak => "between_peak"
      case Both => "both"
    }
  }

  /** Which series a detection analyses. */
  datatype SignalKind = PositionSignal | VelocitySignal | AbsVelocitySignal {
    function Name(): string {
      match this
      case PositionSignal => "position"
      case VelocitySignal => "velocity"
      case AbsVelocitySignal => "abs_velocity"
    }
  }

  /** Why detection raised instead of returning boundaries. */
  datatype DetectError =
    | InvalidSignal(signal: string)
    | InvalidPattern(pattern: string)
    | MissingColumn(column: string)
    | DistanceBelowOne(minDistance: int)  // raised by the peak finder itself
    | EmptySeries                         // the max/min/mean printout on an empty series
    | NoCycles

  /** The pattern a name designates; names are case-sensitive. */
  function ParsePattern(name: string): (r: Option<Pattern>)
    ensures r.Some? ==> r.value.Name() == name
    ensures r.None? ==> name != "on_peak" && name != "between_peak" && name != "both"
  {
    if name == "on_peak" then Some(OnPeak)
    else if name == "between_peak" then Some(BetweenPeak)
    else if name == "both" then Some(Both)
    else None
  }

  /** The signal a name designates; names are case-sensitive. */
  function ParseSignal(name: string): (r: Option<SignalKind>)
    ensures r.Some? ==> r.value.Name() == name
    ensures r.None? ==> name != "position" && name != "velocity" && name != "abs_velocity"
  {
    if name == "position" then Some(PositionSignal)
    else if name == "velocity" then Some(VelocitySignal)
    else if name == "abs_velocity" then Some(AbsVelocitySignal)
    else None
  }

  /** Every pattern and signal is recognised by its own name. */
  lemma NamesRoundTrip(p: Pattern, s: SignalKind)
    ensures ParsePattern(p.Name()) == Some(p)
    ensures ParseSignal(s.Name()) == Some(s)
  {
  }

  /** The analysed series: a column as it is, or the absolute value of the Velocity column. */
  function SelectSeries(data: Table, kind: SignalKind): (r: Result<seq<real>, DetectError>)
    ensures kind == PositionSignal ==>
              if "Position" in data then r == Success(data["Position"]) else r == Failure(MissingColumn("Position"))
    ensures kind != PositionSignal ==> (r.Success? <==> "Velocity" in data)
    ensures kind != PositionSignal && r.Failure? ==> r.error == MissingColumn("Velocity")
    ensures kind == VelocitySignal && r.Success? ==> r.value == data["Velocity"]
    ensures kind == AbsVelocitySignal && r.Success? ==> |r.value| == |data["Velocity"]|
    ensures kind == AbsVelocitySignal && r.Success? ==>
              forall i :: 0 <= i < |r.value| ==>
                0.0 <= r.value[i] && (r.value[i] == data["Velocity"][i] || r.value[i] == -data["Velocity"][i])
  {
    match kind
    case PositionSignal =>
      if "Position" in data then Success(data["Position"]) else Failure(MissingColumn("Position"))
    case VelocitySignal =>
      if "Velocity" in data then Success(data["Velocity"]) else Failure(MissingColumn("Velocity"))
    case AbsVelocitySignal =>
      if "Velocity" in data then Success(AbsAll(data["Velocity"])) else Failure(MissingColumn("Velocity"))
  }

  /** `int(distance * fs)`: the minimum peak separation in samples. */
  function MinDistance(distance: real, fs: real): (n: int)
    ensures 0.0 <= distance * fs ==> n as real <= distance * fs < n as real + 1.0
    ensures distance * fs < 0.0 ==> n as real - 1.0 < distance * fs <= n as real
  {
    Trunc(distance * fs)
  }

  /** `int(n / 2)` on an integer: half of `n`, truncated toward zero. */
  function HalfDown(n: int): int
    decreases if n < 0 then 1 - n else n
  {
    if n < 0 then -HalfDown(-n)
    else if n < 2 then 0
    else 1 + HalfDown(n - 2)
  }

  /** On a natural number, halving rounds down. */
  lemma {:induction false} HalfDownMean(n: int)
    requires 0 <= n
    ensures 2 * HalfDown(n) <= n <= 2 * HalfDown(n) + 1
    decreases n
  {
    if n >= 2 {
      HalfDownMean(n - 2);
    }
  }

  /** Halving an integer agrees with Python's `int(n / 2)`: exact division, then truncation toward zero. */
  lemma HalfDownIsTrunc(n: int)
    ensures HalfDown(n) == Trunc(n as real / 2.0)
  {
    var m := if n < 0 then -n else n;
    HalfDownMean(m);
    var h := HalfDown(m);
    assert h as real <= m as real / 2.0 < h as real + 1.0;
    if n < 0 {
      assert HalfDown(n) == -h;
      assert Trunc(n as real / 2.0) == -Trunc(m as real / 2.0);
    }
  }

  /** The truncated mean of two indices at least two apart lies strictly between them. */
  lemma HalfDownBetween(a: int, b: int)
    requires 0 <= a && a + 2 <= b
    ensures a < HalfDown(a + b) < b
  {
    HalfDownMean(a + b);
  }

  /** For each pair of consecutive peaks, the integer-truncated mean of their indices. */
  function Midpoints(p: seq<int>): (t: seq<int>)
    ensures |t| == if |p| < 2 then 0 else |p| - 1
  {
    if |p| < 2 then []
    else seq(|p| - 1, i requires 0 <= i < |p| - 1 => HalfDown(p[i] + p[i + 1]))
  }

  /** Each midpoint is `int((p[i] + p[i + 1]) / 2)`, the mean of its two peaks rounded toward zero. */
  lemma MidpointsMean(p: seq<int>)
    ensures forall i :: 0 <= i < |Midpoints(p)| ==> Midpoints(p)[i] == Trunc((p[i] + p[i + 1]) as real / 2.0)
    ensures forall i :: 0 <= i < |Midpoints(p)| && 0 <= p[i] + p[i + 1] ==>
              2 * Midpoints(p)[i] <= p[i] + p[i + 1] <= 2 * Midpoints(p)[i] + 1
  {
    var t := Midpoints(p);
    forall i | 0 <= i < |t|
      ensures t[i] == Trunc((p[i] + p[i + 1]) as real / 2.0)
      ensures 0 <= p[i] + p[i + 1] ==> 2 * t[i] <= p[i] + p[i + 1] <= 2 * t[i] + 1
    {
      HalfDownIsTrunc(p[i] + p[i + 1]);
      if 0 <= p[i] + p[i + 1] {
        HalfDownMean(p[i] + p[i + 1]);
      }
    }
  }

  /** Entries that each lie strictly between two consecutive entries of an ascending `p` are ascending and avoid `p`. */
  lemma Interleaved(p: seq<int>, t: seq<int>)
    requires Ascending(p) && (t != [] ==> |t| < |p|)
    requires forall i :: 0 <= i < |t| ==> p[i] < t[i] < p[i + 1]
    ensures Ascending(t)
    ensures forall q :: q in t ==> q !in p
  {
    forall i, j | 0 <= i < j < |t| ensures t[i] + 1 <= t[j] {
      assert t[i] < p[i + 1] <= p[j] < t[j];
    }
    forall q | q in t ensures q !in p {
      var i :| 0 <= i < |t| && t[i] == q;
      forall k | 0 <= k < |p| ensures p[k] != q {
        if k <= i {
          assert p[k] <= p[i];
        } else {
          assert p[i + 1] <= p[k];
        }
      }
    }
  }

  /** Midpoints of peaks at least two apart are ascending, lie between their peaks, and are never peaks. */
  lemma MidpointsInterleave(p: seq<int>)
    requires Spaced(p, 2) && forall i :: 0 <= i < |p| ==> 0 <= p[i]
    ensures Ascending(Midpoints(p))
    ensures forall i :: 0 <= i < |Midpoints(p)| ==> p[i] < Midpoints(p)[i] < p[i + 1]
    ensures forall q :: q in Midpoints(p) ==> q !in p
  {
    var t := Midpoints(p);
    forall i | 0 <= i < |t| ensures p[i] < t[i] < p[i + 1] {
      assert p[i] + 2 <= p[i + 1];
      HalfDownBetween(p[i], p[i + 1]);
    }
    assert Ascending(p) by {
      forall i, j | 0 <= i < j < |p| ensures p[i] + 1 <= p[j] {
        assert p[i] + 2 <= p[j];
      }
    }
    Interleaved(p, t);
  }

  /** Sorted merge of two sequences (`np.sort(np.concatenate((a, b)))` on sorted inputs). */
  function Merge(a: seq<int>, b: seq<int>): (r: seq<int>)
    ensures |r| == |a| + |b|
    ensures multiset(r) == multiset(a) + multiset(b)
    decreases |a| + |b|
  {
    if a == [] then b
    else if b == [] then a
    else if a[0] <= b[0] then
      assert a == [a[0]] + a[1..];
      [a[0]] + Merge(a[1..], b)
    else
      assert b == [b[0]] + b[1..];
      [b[0]] + Merge(a, b[1..])
  }

  /** An entry of the merge comes from one of its inputs. */
  lemma MergeFrom(a: seq<int>, b: seq<int>, q: int)
    requires q in Merge(a, b)
    ensures q in a || q in b
  {
    assert q in multiset(Merge(a, b));
  }

  /** Every entry of either input is an entry of the merge. */
  lemma MergeInto(a: seq<int>, b: seq<int>, q: int)
    requires q in a || q in b
    ensures q in Merge(a, b)
  {
    assert q in multiset(a) + multiset(b);
    assert q in multiset(Merge(a, b));
  }

  /**
   * Merging sequences spaced by `g` (0: sorted, 1: strictly ascending and
   * disjoint) yields a sequence spaced by `g`.
   */
  lemma {:induction false} MergeOrdered(a: seq<int>, b: seq<int>, g: int)
    requires 0 <= g <= 1 && Spaced(a, g) && Spaced(b, g)
    requires g == 1 ==> forall q :: q in a ==> q !in b
    ensures Spaced(Merge(a, b), g)
    decreases |a| + |b|
  {
    if a == [] || b == [] {
    } else if a[0] <= b[0] {
      SpacedHead(a, g);
      SpacedHead(b, g);
      MergeOrdered(a[1..], b, g);
      var rest := Merge(a[1..], b);
      forall p | p in rest ensures a[0] + g <= p {
        MergeFrom(a[1..], b, p);
        if p !in a[1..] {
          if g == 1 { assert a[0] in a; }
          assert b[0] <= p by {
            if p != b[0] { assert p in b[1..]; }
          }
        }
      }
      SpacedCons(a[0], rest, g);
    } else {
      SpacedHead(a, g);
      SpacedHead(b, g);
      MergeOrdered(a, b[1..], g);
      var rest := Merge(a, b[1..]);
      forall p | p in rest ensures b[0] + g <= p {
        MergeFrom(a, b[1..], p);
        if p !in b[1..] {
          assert a[0] <= p by {
            if p != a[0] { assert p in a[1..]; }
          }
        }
      }
      SpacedCons(b[0], rest, g);
    }
  }

  /** The peak contribution: peaks for `on_peak` and `both`, nothing for `between_peak`. */
  function PeakPart(x: seq<real>, threshold: real, d: int, pat: Pattern): seq<int>
    requires d >= 1
  {
    if pat != BetweenPeak then Peaks.FindPeaks(x, threshold, d) else []
  }

  /** The between-peak contribution: peak midpoints for `between_peak` and `both` (peaks recomputed). */
  function TroughPart(x: seq<real>, threshold: real, d: int, pat: Pattern): seq<int>
    requires d >= 1
  {
    if pat != OnPeak then Midpoints(Peaks.FindPeaks(x, threshold, d)) else []
  }

  /** The sorted merge of both contributions. */
  function Merged(x: seq<real>, threshold: real, d: int, pat: Pattern): seq<int>
    requires d >= 1
  {
    Merge(PeakPart(x, threshold, d, pat), TroughPart(x, threshold, d, pat))
  }

  /** Peaks found by the peak finder are interior sample indices. */
  lemma PeaksInterior(x: seq<real>, threshold: real, d: int)
    requires d >= 1
    ensures forall q :: q in Peaks.FindPeaks(x, threshold, d) ==> 1 <= q <= |x| - 2
  {
    Peaks.PeaksSound(x, threshold, d);
  }

  /** Midpoints of found peaks are interior sample indices that are not peaks. */
  lemma MidpointsInterior(x: seq<real>, threshold: real, d: int)
    requires d >= 1
    ensures forall q :: q in Midpoints(Peaks.FindPeaks(x, threshold, d)) ==> 1 <= q <= |x| - 2
    ensures Ascending(Midpoints(Peaks.FindPeaks(x, threshold, d)))
    ensures forall q :: q in Midpoints(Peaks.FindPeaks(x, threshold, d)) ==> q !in Peaks.FindPeaks(x, threshold, d)
  {
    var peaks := Peaks.FindPeaks(x, threshold, d);
    Peaks.PeaksSound(x, threshold, d);
    MidpointsInterleave(peaks);
    var t := Midpoints(peaks);
    forall q | q in t ensures 1 <= q <= |x| - 2 {
      var k :| 0 <= k < |t| && t[k] == q;
      assert peaks[k] in peaks && peaks[k + 1] in peaks;
    }
  }

  /**
   * The merged boundaries are strictly ascending interior sample indices,
   * one per peak and one per pair of consecutive peaks as the pattern asks.
   */
  lemma MergedShape(x: seq<real>, threshold: real, d: int, pat: Pattern)
    requires d >= 1
    ensures Ascending(Merged(x, threshold, d, pat))
    ensures forall q :: q in Merged(x, threshold, d, pat) ==> 1 <= q <= |x| - 2
  {
    var a, b := PeakPart(x, threshold, d, pat), TroughPart(x, threshold, d, pat);
    Peaks.PeaksSound(x, threshold, d);
    PeaksInterior(x, threshold, d);
    MidpointsInterior(x, threshold, d);
    assert Ascending(a) && Ascending(b);
    MergeOrdered(a, b, 1);
    forall q | q in Merged(x, threshold, d, pat) ensures 1 <= q <= |x| - 2 {
      MergeFrom(a, b, q);
    }
  }

  /** Bracketing ascending interior indices with 0 and `n - 1` keeps them ascending. */
  lemma Bracket(m: seq<int>, n: int)
    requires m != [] && Ascending(m) && forall q :: q in m ==> 1 <= q <= n - 2
    ensures Ascending([0] + m + [n - 1])
  {
    assert m[0] in m;
    var r := [0] + m + [n - 1];
    forall i, j | 0 <= i < j < |r| ensures r[i] + 1 <= r[j] {
      if 0 < i && j < |r| - 1 {
        assert r[i] == m[i - 1] && r[j] == m[j - 1];
      } else if 0 < i {
        assert r[i] == m[i - 1] && m[i - 1] in m;
      } else if j < |r| - 1 {
        assert r[j] == m[j - 1] && m[j - 1] in m;
      }
    }
  }

  /** `np.concatenate(([0], m, [n - 1]))` on ascending interior indices. */
  function Bracketed(m: seq<int>, n: int): (r: seq<int>)
    requires m != [] && Ascending(m) && forall q :: q in m ==> 1 <= q <= n - 2
    ensures 3 <= |r| && r[0] == 0 && r[|r| - 1] == n - 1 && Ascending(r)
    ensures |r| == |m| + 2 && forall k :: 0 <= k < |m| ==> r[k + 1] == m[k]
  {
    Bracket(m, n);
    [0] + m + [n - 1]
  }

  /** Peak picking, midpoints, merge, the empty check and the 0 / last-index bracketing. */
  function Boundaries(x: seq<real>, threshold: real, d: int, pat: Pattern): (r: Result<seq<int>, DetectError>)
    requires d >= 1
    ensures r.Success? ==> 3 <= |r.value| && r.value[0] == 0 && r.value[|r.value| - 1] == |x| - 1
    ensures r.Success? ==> Ascending(r.value)
  {
    if pat != BetweenPeak && |x| == 0 then Failure(EmptySeries)
    else
      var merged := Merged(x, threshold, d, pat);
      if merged == [] then Failure(NoCycles)
      else
        MergedShape(x, threshold, d, pat);
        Success(Bracketed(merged, |x|))
  }

  /** `detect_cycles(data, threshold, distance, pattern, signal, fs)`. */
  function Detect(data: Table, threshold: real, distance: real, pattern: string, signal: string, fs: real)
    : (r: Result<seq<int>, DetectError>)
    ensures ParseSignal(signal).None? ==> r == Failure(InvalidSignal(signal))
    ensures ParseSignal(signal).Some? && ParsePattern(pattern).None? ==> r == Failure(InvalidPattern(pattern))
    ensures r.Success? ==> 3 <= |r.value| && r.value[0] == 0 && Ascending(r.value)
  {
    match ParseSignal(signal)
    case None => Failure(InvalidSignal(signal))
    case Some(kind) =>
      match ParsePattern(pattern)
      case None => Failure(InvalidPattern(pattern))
      case Some(pat) =>
        match SelectSeries(data, kind)
        case Failure(e) => Failure(e)
        case Success(x) =>
          var d := MinDistance(distance, fs);
          if d < 1 then Failure(DistanceBelowOne(d))
          else Boundaries(x, threshold, d, pat)
  }

  /** An empty series fails the statistics printout unless only midpoints are asked for. */
  lemma BoundariesEmptySeries(x: seq<real>, threshold: real, d: int, pat: Pattern)
    requires d >= 1
    ensures Boundaries(x, threshold, d, pat) == Failure(EmptySeries) <==> pat != BetweenPeak && |x| == 0
  {
  }

  /** The boundaries found are empty exactly when the pattern's contribution is: no peak, or fewer than two for `between_peak`. */
  lemma MergedEmpty(x: seq<real>, threshold: real, d: int, pat: Pattern)
    requires d >= 1
    ensures Merged(x, threshold, d, pat) == [] <==>
              if pat == BetweenPeak then |Peaks.FindPeaks(x, threshold, d)| < 2
              else Peaks.FindPeaks(x, threshold, d) == []
  {
    var p := Peaks.FindPeaks(x, threshold, d);
    assert |Merged(x, threshold, d, pat)| == |PeakPart(x, threshold, d, pat)| + |TroughPart(x, threshold, d, pat)|;
    assert |Midpoints(p)| == if |p| < 2 then 0 else |p| - 1;
  }

  /** Detection reports "no cycles" exactly when the series is usable but the pattern's contribution is empty. */
  lemma BoundariesNoCycles(x: seq<real>, threshold: real, d: int, pat: Pattern)
    requires d >= 1
    ensures Boundaries(x, threshold, d, pat) == Failure(NoCycles) <==>
              !(pat != BetweenPeak && |x| == 0)
              && (if pat == BetweenPeak then |Peaks.FindPeaks(x, threshold, d)| < 2
                  else Peaks.FindPeaks(x, threshold, d) == [])
  {
    MergedEmpty(x, threshold, d, pat);
  }

  /** On success the interior entries are exactly the peaks and midpoints the pattern asks for, each once. */
  lemma BoundariesContent(x: seq<real>, threshold: real, d: int, pat: Pattern)
    requires d >= 1 && Boundaries(x, threshold, d, pat).Success?
    ensures var r := Boundaries(x, threshold, d, pat).value;
            |r| == |PeakPart(x, threshold, d, pat)| + |TroughPart(x, threshold, d, pat)| + 2
            && multiset(r[1..|r| - 1]) == multiset(PeakPart(x, threshold, d, pat)) + multiset(TroughPart(x, threshold, d, pat))
  {
    var m := Merged(x, threshold, d, pat);
    var r := Boundaries(x, threshold, d, pat).value;
    assert r == [0] + m + [|x| - 1];
    assert r[1..|r| - 1] == m;
  }

  /** On success every peak (for `on_peak`, `both`) and every midpoint (for `between_peak`, `both`) is a boundary. */
  lemma BoundariesComplete(x: seq<real>, threshold: real, d: int, pat: Pattern, q: int)
    requires d >= 1 && Boundaries(x, threshold, d, pat).Success?
    requires (pat != BetweenPeak && q in Peaks.FindPeaks(x, threshold, d))
             || (pat != OnPeak && q in Midpoints(Peaks.FindPeaks(x, threshold, d)))
    ensures q in Boundaries(x, threshold, d, pat).value
  {
    MergeInto(PeakPart(x, threshold, d, pat), TroughPart(x, threshold, d, pat), q);
    var m := Merged(x, threshold, d, pat);
    MergedShape(x, threshold, d, pat);
    var r := Bracketed(m, |x|);
    assert Boundaries(x, threshold, d, pat).value == r;
    var k :| 0 <= k < |m| && m[k] == q;
    assert r[k + 1] == q;
  }

  /**
   * Once names and column are valid, a minimum distance below one sample
   * (`distance * fs < 1`) is rejected, and otherwise the outcome is that of
   * the peak stage on the selected series.
   */
  lemma DetectOutcome(data: Table, threshold: real, distance: real, pat: Pattern, kind: SignalKind, fs: real)
    requires SelectSeries(data, kind).Success?
    ensures var d := MinDistance(distance, fs);
            var r := Detect(data, threshold, distance, pat.Name(), kind.Name(), fs);
            (d < 1 <==> distance * fs < 1.0)
            && (d < 1 ==> r == Failure(DistanceBelowOne(d)))
            && (d >= 1 ==> r == Boundaries(SelectSeries(data, kind).value, threshold, d, pat))
  {
    NamesRoundTrip(pat, kind);
  }

  /** With valid names, a missing column fails before any distance or peak logic runs. */
  lemma DetectMissingColumn(data: Table, threshold: real, distance: real, pat: Pattern, kind: SignalKind, fs: real)
    requires SelectSeries(data, kind).Failure?
    ensures Detect(data, threshold, distance, pat.Name(), kind.Name(), fs)
            == Failure(MissingColumn(if kind == PositionSignal then "Position" else "Velocity"))
  {
    NamesRoundTrip(pat, kind);
  }

  /**
   * The signal choice changes only the analysed series: `velocity` and
   * `abs_velocity` behave as `position` on a table whose Position column is
   * the velocity, respectively its absolute value.
   */
  lemma DetectSignalChoice(data: Table, threshold: real, distance: real, pattern: string, fs: real)
    requires "Velocity" in data
    ensures Detect(data, threshold, distance, pattern, "velocity", fs)
            == Detect(map["Position" := data["Velocity"]], threshold, distance, pattern, "position", fs)
    ensures Detect(data, threshold, distance, pattern, "abs_velocity", fs)
            == Detect(map["Position" := AbsAll(data["Velocity"])], threshold, distance, pattern, "position", fs)
  {
    assert ParseSignal("velocity") == Some(VelocitySignal);
    assert ParseSignal("abs_velocity") == Some(AbsVelocitySignal);
    assert ParseSignal("position") == Some(PositionSignal);
  }

  /** The local maxima of three unit-height peaks one sample apart. */
  lemma ThreePeaksCandidates()
    ensures Peaks.Candidates([0.0, 1.0, 0.0, 1.0, 0.0, 1.0, 0.0], 0.5) == [1, 3, 5]
    ensures Peaks.Candidates([0.0, 1.0, 0.0, 1.0, 0.0, 1.0, 0.0], 1.5) == []
  {
    var x := [0.0, 1.0, 0.0, 1.0, 0.0, 1.0, 0.0];
    assert Peaks.PlateauEnd(x, 5) == 6;
    assert Peaks.LocalMaxima(x, 5) == [5];
    assert Peaks.PlateauEnd(x, 3) == 4;
    assert Peaks.LocalMaxima(x, 3) == [3, 5];
    assert Peaks.PlateauEnd(x, 1) == 2;
    assert Peaks.LocalMaxima(x, 1) == [1, 3, 5];
  }

  /** Three unit-height peaks one sample apart, found with a one-sample minimum distance. */
  lemma ThreePeaksFound()
    ensures Peaks.FindPeaks([0.0, 1.0, 0.0, 1.0, 0.0, 1.0, 0.0], 0.5, 1) == [1, 3, 5]
    ensures Peaks.FindPeaks([0.0, 1.0, 0.0, 1.0, 0.0, 1.0, 0.0], 1.5, 1) == []
  {
    ThreePeaksCandidates();
    Peaks.PeaksCloseDistance([0.0, 1.0, 0.0, 1.0, 0.0, 1.0, 0.0], 0.5, 1);
    Peaks.PeaksCloseDistance([0.0, 1.0, 0.0, 1.0, 0.0, 1.0, 0.0], 1.5, 1);
  }

  /** With a usable series and some boundary found, the result is those boundaries bracketed by 0 and the last index. */
  lemma BoundariesBracketed(x: seq<real>, threshold: real, d: int, pat: Pattern)
    requires d >= 1 && x != [] && Merged(x, threshold, d, pat) != []
    ensures Boundaries(x, threshold, d, pat).Success?
    ensures Boundaries(x, threshold, d, pat).value == [0] + Merged(x, threshold, d, pat) + [|x| - 1]
  {
  }

  /** The truncated means of 1, 3 and 3, 5. */
  lemma MidpointsOneThreeFive()
    ensures Midpoints([1, 3, 5]) == [2, 4]
  {
    var t := Midpoints([1, 3, 5]);
    assert HalfDown(4) == 2 && HalfDown(8) == 4;
    assert t[0] == HalfDown(4) && t[1] == HalfDown(8);
  }

  /** A height above every sample finds no cycles; half a sample of distance is rejected. */
  lemma ThreePeaksRejected()
    ensures Detect(map["Position" := [0.0, 1.0, 0.0, 1.0, 0.0, 1.0, 0.0]], 1.5, 1.0, "both", "position", 1.0)
            == Failure(NoCycles)
    ensures Detect(map["Position" := [0.0, 1.0, 0.0, 1.0, 0.0, 1.0, 0.0]], 0.5, 0.5, "both", "position", 1.0)
            == Failure(DistanceBelowOne(0))
  {
    ThreePeaksFound();
  }

  /** The three peaks, on-peak pattern: the merged boundaries are the peaks. */
  lemma ThreePeaksMerged(x: seq<real>)
    requires x == [0.0, 1.0, 0.0, 1.0, 0.0, 1.0, 0.0]
    ensures Merged(x, 0.5, 1, OnPeak) == [1, 3, 5]
  {
    ThreePeaksFound();
  }

  /** A seven-sample series whose merged boundaries are 1, 3, 5 is cut at 0, 1, 3, 5 and 6. */
  lemma ThreePeaksBoundaries(x: seq<real>)
    requires |x| == 7 && Merged(x, 0.5, 1, OnPeak) == [1, 3, 5]
    ensures Boundaries(x, 0.5, 1, OnPeak) == Success([0, 1, 3, 5, 6])
  {
    var m := Merged(x, 0.5, 1, OnPeak);
    MergedShape(x, 0.5, 1, OnPeak);
    var v := Bracketed(m, |x|);
    assert Boundaries(x, 0.5, 1, OnPeak) == Success(v);
    assert v == [0, 1, 3, 5, 6] by {
      assert |v| == 5 && v[0] == 0 && v[1] == m[0] && v[2] == m[1] && v[3] == m[2] && v[4] == 6;
    }
  }

  /** Scenario: three unit-height peaks at one sample per second, one second apart, detected on position. */
  lemma ThreePeaksDetected()
    ensures Detect(map["Position" := [0.0, 1.0, 0.0, 1.0, 0.0, 1.0, 0.0]], 0.5, 1.0, "on_peak", "position", 1.0)
            == Success([0, 1, 3, 5, 6])
  {
    var x := [0.0, 1.0, 0.0, 1.0, 0.0, 1.0, 0.0];
    var data := map["Position" := x];
    assert SelectSeries(data, PositionSignal) == Success(x);
    DetectOutcome(data, 0.5, 1.0, OnPeak, PositionSignal, 1.0);
    assert MinDistance(1.0, 1.0) == 1;
    assert OnPeak.Name() == "on_peak" && PositionSignal.Name() == "position";
    ThreePeaksMerged(x);
    ThreePeaksBoundaries(x);
  }
}
