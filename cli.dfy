/**
 * The interactive per-record session of the command-line tool (`main`):
 * parameter initialisation, record filtering and naming, the reprocess
 * gate, the detect / accept / retune / manual-cutting loop, persistence and
 * per-record error containment.
 *
 * Operator input is the stream of lines typed at the prompts and the
 * sequence of click rounds of the manual-cutting plots. An exhausted stream
 * is click's Abort, a RuntimeError that the per-record handler catches.
 */
module Cli {
  import opened Wrappers
  import opened Common
  import opened Text
  import opened Detection
  import opened CyclesUtils

  /** The command-line options, as click has already validated them. */
  datatype Options = Options(
    fs: real,
    pattern: Pattern,
    dataSource: string,
    condition: string,
    positionCol: string,
    signal: SignalKind,
    threshold: Option<real>,
    distance: Option<real>)

  /**
   * What the session cannot compute itself: the data directory, the table
   * each record file loads to (a file missing here fails to load), the
   * zero-phase filter and float parsing of a typed line.
   */
  datatype Config = Config(
    options: Options,
    dataPath: string,
    tables: map<string, Table>,
    zeroPhase: (seq<real>, real) -> seq<real>,
    parseReal: string -> Option<real>)

  // ---------------------------------------------------------------------
  // Parameters and records
  // ---------------------------------------------------------------------

  /** The loaded parameters with pattern and signal always, threshold and distance only when given, from the options. */
  function InitialParams(loaded: Params, o: Options): (p: Params)
    ensures p.pattern == o.pattern.Name() && p.signal == Some(o.signal.Name())
    ensures p.threshold == if o.threshold.Some? then o.threshold.value else loaded.threshold
    ensures p.distance == if o.distance.Some? then o.distance.value else loaded.distance
  {
    Params(o.threshold.GetOr(loaded.threshold), o.distance.GetOr(loaded.distance), o.pattern.Name(), Some(o.signal.Name()))
  }

  /** Re-applying the options changes nothing; with threshold and distance given, the stored parameters do not matter. */
  lemma InitialParamsOverride(a: Params, b: Params, o: Options)
    ensures InitialParams(InitialParams(a, o), o) == InitialParams(a, o)
    ensures o.threshold.Some? && o.distance.Some? ==> InitialParams(a, o) == InitialParams(b, o)
    ensures o.threshold.None? && o.distance.None? ==>
              (InitialParams(a, o) == InitialParams(b, o) <==> a.threshold == b.threshold && a.distance == b.distance)
  {
  }

  /** A listed file is a record: a `.csv` or `.parquet` name holding both keywords, all compared in lower case. */
  predicate IsRecord(f: string, o: Options) {
    var name := Lower(f);
    (EndsWith(name, ".csv") || EndsWith(name, ".parquet"))
    && Contains(name, Lower(o.dataSource)) && Contains(name, Lower(o.condition))
  }

  /** A file is a record exactly when both lower-cased keywords occur somewhere in its lower-cased name. */
  lemma IsRecordIff(f: string, o: Options)
    ensures IsRecord(f, o) <==>
              (EndsWith(Lower(f), ".csv") || EndsWith(Lower(f), ".parquet"))
              && (exists i :: OccursAt(Lower(f), Lower(o.dataSource), i))
              && (exists i :: OccursAt(Lower(f), Lower(o.condition), i))
  {
    ContainsIff(Lower(f), Lower(o.dataSource));
    ContainsIff(Lower(f), Lower(o.condition));
  }

  /** The listing filtered to records, in listing order. */
  function Records(listing: seq<string>, o: Options): (r: seq<string>)
    ensures forall f :: f in r <==> f in listing && IsRecord(f, o)
    ensures |r| <= |listing|
  {
    if listing == [] then []
    else if IsRecord(listing[0], o) then [listing[0]] + Records(listing[1..], o)
    else Records(listing[1..], o)
  }

  /** Each index shifted by one; shifting keeps a sequence ascending. */
  function Shifted(m: seq<int>): (r: seq<int>)
    ensures |r| == |m| && forall k :: 0 <= k < |m| ==> r[k] == m[k] + 1
    ensures Ascending(m) ==> Ascending(r)
  {
    seq(|m|, k requires 0 <= k < |m| => m[k] + 1)
  }

  /**
   * The positions in the listing that the records come from: strictly
   * ascending, and including every position holding a record, so the filter
   * keeps exactly the records, duplicates included, in listing order.
   */
  function RecordPositions(listing: seq<string>, o: Options): (m: seq<int>)
    ensures |m| == |Records(listing, o)|
    ensures forall k :: 0 <= k < |m| ==> 0 <= m[k] < |listing| && listing[m[k]] == Records(listing, o)[k]
    ensures Ascending(m)
    ensures forall i :: 0 <= i < |listing| && IsRecord(listing[i], o) ==> i in m
  {
    if listing == [] then []
    else
      var rest := RecordPositions(listing[1..], o);
      var m := Shifted(rest);
      ShiftedPositions(listing, o, rest, m);
      if IsRecord(listing[0], o) then
        RecordPositionsCons(listing, o, m);
        [0] + m
      else
        assert Records(listing, o) == Records(listing[1..], o);
        m
  }

  /** The positions of the tail's records, shifted, point at the same records in the whole listing. */
  lemma ShiftedPositions(listing: seq<string>, o: Options, rest: seq<int>, m: seq<int>)
    requires listing != []
    requires |rest| == |Records(listing[1..], o)|
    requires forall k :: 0 <= k < |rest| ==> 0 <= rest[k] < |listing| - 1 && listing[1..][rest[k]] == Records(listing[1..], o)[k]
    requires forall i :: 0 <= i < |listing| - 1 && IsRecord(listing[1..][i], o) ==> i in rest
    requires |m| == |rest| && forall k :: 0 <= k < |rest| ==> m[k] == rest[k] + 1
    ensures forall k :: 0 <= k < |m| ==> 1 <= m[k] < |listing| && listing[m[k]] == Records(listing[1..], o)[k]
    ensures forall i :: 1 <= i < |listing| && IsRecord(listing[i], o) ==> i in m
  {
    forall k | 0 <= k < |m| ensures 1 <= m[k] < |listing| && listing[m[k]] == Records(listing[1..], o)[k] {
      assert listing[1..][rest[k]] == listing[m[k]];
    }
    forall i | 1 <= i < |listing| && IsRecord(listing[i], o) ensures i in m {
      assert listing[1..][i - 1] == listing[i];
      var k :| 0 <= k < |rest| && rest[k] == i - 1;
      assert m[k] == i;
    }
  }

  /** A record at the head of the listing is taken first, at position 0. */
  lemma RecordPositionsCons(listing: seq<string>, o: Options, m: seq<int>)
    requires listing != [] && IsRecord(listing[0], o)
    requires |m| == |Records(listing[1..], o)| && Ascending(m)
    requires forall k :: 0 <= k < |m| ==> 1 <= m[k] < |listing| && listing[m[k]] == Records(listing[1..], o)[k]
    requires forall i :: 1 <= i < |listing| && IsRecord(listing[i], o) ==> i in m
    ensures var r := [0] + m;
            |r| == |Records(listing, o)|
            && (forall k :: 0 <= k < |r| ==> 0 <= r[k] < |listing| && listing[r[k]] == Records(listing, o)[k])
            && Ascending(r)
            && (forall i :: 0 <= i < |listing| && IsRecord(listing[i], o) ==> i in r)
  {
    var r := [0] + m;
    var recs := Records(listing, o);
    assert recs == [listing[0]] + Records(listing[1..], o);
    forall k | 0 <= k < |r| ensures 0 <= r[k] < |listing| && listing[r[k]] == recs[k] {
      if k > 0 { assert r[k] == m[k - 1] && recs[k] == Records(listing[1..], o)[k - 1]; }
    }
    forall i | 0 <= i < |listing| && IsRecord(listing[i], o) ensures i in r {
      if i > 0 { assert i in m; }
    }
    forall p | p in m ensures 0 + 1 <= p {
      var k :| 0 <= k < |m| && m[k] == p;
    }
    SpacedCons(0, m, 1);
  }

  /** `os.path.join(directory, entry)` for an entry without '/'. */
  function JoinPath(directory: string, entry: string): (p: string)
    ensures |directory| <= |p| && p[..|directory|] == directory && EndsWith(p, entry)
  {
    if directory == [] || directory[|directory| - 1] == '/' then directory + entry
    else directory + "/" + entry
  }

  /** `os.path.splitext(os.path.basename(path))[0]`. */
  function RecordName(path: string): string {
    SplitExt(BaseName(path)).0
  }

  /** The name of a listed record `stem + ext` is its stem, whatever the directory. */
  lemma RecordNameOfEntry(directory: string, stem: string, ext: string)
    requires '/' !in stem + ext
    requires |ext| >= 1 && ext[0] == '.' && '.' !in ext[1..] && !AllDots(stem)
    ensures RecordName(JoinPath(directory, stem + ext)) == stem
  {
    var f := stem + ext;
    if directory == [] || directory[|directory| - 1] == '/' {
      BaseNameAfterSlash(directory, f);
    } else {
      assert directory + "/" + f == (directory + "/") + f;
      BaseNameAfterSlash(directory + "/", f);
    }
    SplitExtOf(stem, ext);
  }

  /** A record to process: its path and the name derived from it. */
  datatype Entry = Entry(path: string, name: string)

  /** The record of a listed file: its path in the data directory and its name. */
  function EntryOf(directory: string, f: string): (e: Entry)
    ensures |directory| <= |e.path| && e.path[..|directory|] == directory && EndsWith(e.path, f)
  {
    var path := JoinPath(directory, f);
    Entry(path, RecordName(path))
  }

  /** A listed record `stem + ext` is processed under the name `stem`, whatever the directory. */
  lemma EntryOfRecord(directory: string, stem: string, ext: string)
    requires '/' !in stem + ext
    requires |ext| >= 1 && ext[0] == '.' && '.' !in ext[1..] && !AllDots(stem)
    ensures EntryOf(directory, stem + ext) == Entry(JoinPath(directory, stem + ext), stem)
  {
    RecordNameOfEntry(directory, stem, ext);
  }

  /** The records of the listed files, in listing order. */
  function Entries(directory: string, records: seq<string>): (es: seq<Entry>)
    ensures |es| == |records|
    ensures forall i :: 0 <= i < |records| ==> es[i] == EntryOf(directory, records[i])
  {
    seq(|records|, i requires 0 <= i < |records| => EntryOf(directory, records[i]))
  }

  // ---------------------------------------------------------------------
  // Prompts
  // ---------------------------------------------------------------------

  /**
   * `click.prompt(type=float, default=d)`: an empty line gives the default,
   * a line that does not parse is rejected and the prompt repeats; `None`
   * when the lines run out. Returns the value and the remaining lines.
   */
  function PromptReal(lines: seq<string>, default: real, parseReal: string -> Option<real>)
    : (r: Option<(real, seq<string>)>)
    ensures r.Some? ==> |r.value.1| < |lines| && r.value.1 == lines[|lines| - |r.value.1|..]
    ensures r.Some? ==> var k := |lines| - |r.value.1| - 1;
              (lines[k] == "" && r.value.0 == default) || (lines[k] != "" && parseReal(lines[k]) == Some(r.value.0))
    ensures r.Some? ==> forall i :: 0 <= i < |lines| - |r.value.1| - 1 ==> lines[i] != "" && parseReal(lines[i]).None?
    ensures r.None? ==> forall i :: 0 <= i < |lines| ==> lines[i] != "" && parseReal(lines[i]).None?
  {
    if lines == [] then None
    else if lines[0] == "" then Some((default, lines[1..]))
    else match parseReal(lines[0])
      case Some(v) => Some((v, lines[1..]))
      case None =>
        var r := PromptReal(lines[1..], default, parseReal);
        assert r.Some? ==> r.value.1 == lines[|lines| - |r.value.1|..];
        r
  }

  /** click.Choice with case_sensitive=False: the pattern a typed value names, ignoring case. */
  function ChoosePattern(value: string): (p: Option<Pattern>)
    ensures p.Some? ==> Lower(value) == p.value.Name()
  {
    ParsePattern(Lower(value))
  }

  /**
   * `click.prompt(type=Choice(patterns), default=d)`: an empty line stands
   * for the default; a value `choose` maps to no pattern is rejected and the
   * prompt repeats. Returns the pattern chosen and the remaining lines.
   */
  function PromptChoice(lines: seq<string>, default: string, choose: string -> Option<Pattern>)
    : (r: Option<(Pattern, seq<string>)>)
    ensures r.Some? ==> |r.value.1| < |lines| && r.value.1 == lines[|lines| - |r.value.1|..]
    ensures r.Some? ==> var k := |lines| - |r.value.1| - 1;
              choose(PromptValue(lines[k], default)) == Some(r.value.0)
    ensures r.Some? ==> forall i :: 0 <= i < |lines| - |r.value.1| - 1 ==> choose(PromptValue(lines[i], default)).None?
    ensures r.None? ==> forall i :: 0 <= i < |lines| ==> choose(PromptValue(lines[i], default)).None?
  {
    if lines == [] then None
    else match choose(PromptValue(lines[0], default))
      case Some(p) => Some((p, lines[1..]))
      case None =>
        var r := PromptChoice(lines[1..], default, choose);
        assert r.Some? ==> r.value.1 == lines[|lines| - |r.value.1|..];
        r
  }

  // ---------------------------------------------------------------------
  // The detect / review loop
  // ---------------------------------------------------------------------

  /** How the review loop ended. */
  datatype Exit = Accepted | ManualDone | InputEnded

  /** The loop's exit and the state it leaves: parameters, last indices and unread input. */
  datatype Review = Review(exit: Exit, params: Params, sep: Option<seq<int>>, lines: seq<string>, clicks: seq<seq<real>>)

  /** The last indices after a detection: replaced on success, left as they were on a detection error. */
  function AfterDetection(c: Config, data: Table, p: Params, sep: Option<seq<int>>): Option<seq<int>>
    requires p.signal.Some?
  {
    var detected := Detect(data, p.threshold, p.distance, p.pattern, p.signal.value, c.options.fs);
    if detected.Success? then Some(detected.value) else sep
  }

  /** How the threshold, distance and pattern prompts ended. */
  datatype Prompted = Prompted(params: Params, rest: seq<string>, complete: bool)

  /**
   * The threshold, distance and pattern prompts, each assigning its
   * parameter in place as soon as it is answered; `complete` is false when
   * the input ended before all three were answered.
   */
  function PromptParams(lines: seq<string>, p: Params, parseReal: string -> Option<real>): (q: Prompted)
    ensures q.params.signal == p.signal
    ensures q.complete ==> |q.rest| < |lines| && ParsePattern(q.params.pattern).Some?
    ensures !q.complete ==> q.rest == [] && (ParsePattern(p.pattern).Some? ==> ParsePattern(q.params.pattern).Some?)
    ensures (q.complete || q.params.threshold != p.threshold) ==> PromptReal(lines, p.threshold, parseReal).Some?
  {
    match PromptReal(lines, p.threshold, parseReal)
    case None => Prompted(p, [], false)
    case Some((threshold, afterThreshold)) =>
      var p1 := p.(threshold := threshold);
      match PromptReal(afterThreshold, p1.distance, parseReal)
      case None => Prompted(p1, [], false)
      case Some((distance, afterDistance)) =>
        var p2 := p1.(distance := distance);
        match PromptChoice(afterDistance, p2.pattern, ChoosePattern)
        case None => Prompted(p2, [], false)
        case Some((pattern, afterPattern)) =>
          NamesRoundTrip(pattern, PositionSignal);
          Prompted(p2.(pattern := pattern.Name()), afterPattern, true)
  }

  /**
   * Each prompt that was answered sets its parameter to the value it
   * returned, the current value being the default; a parameter whose prompt
   * was not reached keeps its value. The retune is complete exactly when
   * the pattern prompt was answered.
   */
  lemma PromptParamsValues(lines: seq<string>, p: Params, parseReal: string -> Option<real>)
    ensures var q := PromptParams(lines, p, parseReal);
            var t := PromptReal(lines, p.threshold, parseReal);
            var d := if t.Some? then PromptReal(t.value.1, p.distance, parseReal) else None;
            var n := if d.Some? then PromptChoice(d.value.1, p.pattern, ChoosePattern) else None;
            q.params == p.(threshold := if t.Some? then t.value.0 else p.threshold,
                           distance := if d.Some? then d.value.0 else p.distance,
                           pattern := if n.Some? then n.value.0.Name() else p.pattern)
            && (q.complete <==> n.Some?) && (n.Some? ==> q.rest == n.value.1)
  {
  }

  /** The value a float prompt with default `default` takes from one typed line, if it accepts the line. */
  function FloatAnswer(line: string, default: real, parseReal: string -> Option<real>): Option<real> {
    if line == "" then Some(default) else parseReal(line)
  }

  /**
   * Retuning with three accepted answers: the next pass detects with the
   * threshold, distance and pattern just typed (an empty answer keeping the
   * current value), or manual cutting ends the loop with those parameters.
   */
  lemma RetuneAnswered(c: Config, data: Table, p: Params, sep: Option<seq<int>>, lines: seq<string>,
                       clicks: seq<seq<real>>, t: real, d: real, pattern: Pattern)
    requires p.signal.Some? && |lines| >= 4
    requires FloatAnswer(lines[0], p.threshold, c.parseReal) == Some(t)
    requires FloatAnswer(lines[1], p.distance, c.parseReal) == Some(d)
    requires ChoosePattern(PromptValue(lines[2], p.pattern)) == Some(pattern)
    ensures var q := p.(threshold := t, distance := d, pattern := pattern.Name());
            Retune(c, data, p, sep, lines, clicks)
            == if IsYes(PromptValue(lines[3], "N")) then ManualExit(q, sep, lines[4..], clicks)
               else ReviewSpec(c, data, q, sep, lines[4..], clicks)
  {
    assert PromptReal(lines, p.threshold, c.parseReal) == Some((t, lines[1..]));
    assert PromptReal(lines[1..], p.distance, c.parseReal) == Some((d, lines[2..])) by {
      assert lines[1..][0] == lines[1] && lines[1..][1..] == lines[2..];
    }
    assert PromptChoice(lines[2..], p.pattern, ChoosePattern) == Some((pattern, lines[3..])) by {
      assert lines[2..][0] == lines[2] && lines[2..][1..] == lines[3..];
    }
    assert lines[3..][0] == lines[3] && lines[3..][1..] == lines[4..];
  }

  /** Indices `s` are what detection returns for parameters `q`. */
  predicate Detected(c: Config, data: Table, q: Params, s: seq<int>) {
    q.signal.Some? && Detect(data, q.threshold, q.distance, q.pattern, q.signal.value, c.options.fs) == Success(s)
  }

  /** Indices `s` are the truncated clicks of one of the click rounds. */
  predicate Clicked(clicks: seq<seq<real>>, s: seq<int>) {
    exists j :: 0 <= j < |clicks| && s == TruncAll(clicks[j])
  }

  /**
   * `manual_cutting` chosen: its confirmed indices end the loop; input
   * running out aborts it with the indices as they were.
   */
  function ManualExit(p: Params, sep: Option<seq<int>>, lines: seq<string>, clicks: seq<seq<real>>): (r: Review)
    ensures r.exit != Accepted && r.params == p && |r.lines| <= |lines|
    ensures r.exit == ManualDone ==> r.sep.Some? && r.sep.value != [] && Clicked(clicks, r.sep.value)
    ensures r.exit == InputEnded ==> r.sep == sep
  {
    match ManualSpec(clicks, lines)
    case Confirmed(indices, u, a) =>
      Review(ManualDone, p, Some(indices), lines[a..], clicks[u..])
    case OutOfInput(u, a) => Review(InputEnded, p, sep, lines[a..], clicks[u..])
  }

  /**
   * The rest of one pass of the `while True` loop once the accept prompt
   * was answered "no": the parameter prompts, then the manual-cutting
   * prompt (empty means "N"), which either ends the loop or starts the next pass.
   */
  function Retune(c: Config, data: Table, p: Params, sep: Option<seq<int>>, lines: seq<string>,
                  clicks: seq<seq<real>>): (r: Review)
    requires p.signal.Some?
    ensures r.params.signal == p.signal
    ensures ParsePattern(p.pattern).Some? ==> ParsePattern(r.params.pattern).Some?
    ensures |r.lines| <= |lines|
    ensures sep.Some? ==> r.sep.Some?
    decreases |lines|, 0
  {
    var q := PromptParams(lines, p, c.parseReal);
    if !q.complete || q.rest == [] then Review(InputEnded, q.params, sep, [], clicks)
    else if IsYes(PromptValue(q.rest[0], "N")) then ManualExit(q.params, sep, q.rest[1..], clicks)
    else ReviewSpec(c, data, q.params, sep, q.rest[1..], clicks)
  }

  /**
   * The `while True` detect / review loop: detect with the current
   * parameters (a detection error only reports), then the accept prompt
   * (empty means "Y") ends the loop or leads to retuning.
   */
  function ReviewSpec(c: Config, data: Table, p: Params, sep: Option<seq<int>>, lines: seq<string>,
                      clicks: seq<seq<real>>): (r: Review)
    requires p.signal.Some?
    ensures r.params.signal == p.signal
    ensures ParsePattern(p.pattern).Some? ==> ParsePattern(r.params.pattern).Some?
    ensures |r.lines| <= |lines|
    ensures sep.Some? ==> r.sep.Some?
    decreases |lines|, 1
  {
    var sep1 := AfterDetection(c, data, p, sep);
    if lines == [] then Review(InputEnded, p, sep1, lines, clicks)
    else if IsYes(PromptValue(lines[0], "Y")) then Review(Accepted, p, sep1, lines[1..], clicks)
    else Retune(c, data, p, sep1, lines[1..], clicks)
  }

  /**
   * Indices `s` are the indices `sep` the loop started with, a detection's
   * result for some parameters, or one round of manual clicks.
   */
  ghost predicate Origin(c: Config, data: Table, clicks: seq<seq<real>>, sep: Option<seq<int>>, s: Option<seq<int>>) {
    s == sep || (s.Some? && ((exists q :: Detected(c, data, q, s.value)) || Clicked(clicks, s.value)))
  }

  /** Where the loop's indices come from. */
  lemma {:induction false} ReviewIndicesOrigin(c: Config, data: Table, p: Params, sep: Option<seq<int>>,
                                               lines: seq<string>, clicks: seq<seq<real>>)
    requires p.signal.Some?
    ensures Origin(c, data, clicks, sep, ReviewSpec(c, data, p, sep, lines, clicks).sep)
    decreases |lines|
  {
    var sep1 := AfterDetection(c, data, p, sep);
    var r := ReviewSpec(c, data, p, sep, lines, clicks);
    assert Origin(c, data, clicks, sep, sep1) by {
      if sep1 != sep {
        assert Detected(c, data, p, sep1.value);
      }
    }
    if lines != [] && !IsYes(PromptValue(lines[0], "Y")) {
      var q := PromptParams(lines[1..], p, c.parseReal);
      assert r == Retune(c, data, p, sep1, lines[1..], clicks);
      if q.complete && q.rest != [] && !IsYes(PromptValue(q.rest[0], "N")) {
        ReviewIndicesOrigin(c, data, q.params, sep1, q.rest[1..], clicks);
        assert Origin(c, data, clicks, sep1, r.sep);
      } else {
        assert r.sep == sep1 || (r.sep.Some? && Clicked(clicks, r.sep.value));
      }
    }
  }

  /**
   * Accepting right after a failed detection keeps the indices the loop
   * started with: those of an earlier pass, or of an earlier record, or none.
   */
  lemma ReviewAcceptAfterFailure(c: Config, data: Table, p: Params, sep: Option<seq<int>>,
                                 lines: seq<string>, clicks: seq<seq<real>>)
    requires p.signal.Some?
    requires lines != [] && IsYes(PromptValue(lines[0], "Y"))
    requires Detect(data, p.threshold, p.distance, p.pattern, p.signal.value, c.options.fs).Failure?
    ensures ReviewSpec(c, data, p, sep, lines, clicks) == Review(Accepted, p, sep, lines[1..], clicks)
  {
  }

  /**
   * When the loop ends by acceptance and the final parameters detect
   * successfully, the indices are that detection's result.
   */
  lemma {:induction false} ReviewAcceptedFresh(c: Config, data: Table, p: Params, sep: Option<seq<int>>,
                                               lines: seq<string>, clicks: seq<seq<real>>)
    requires p.signal.Some?
    ensures var r := ReviewSpec(c, data, p, sep, lines, clicks);
            r.exit == Accepted && r.params.signal.Some?
            && Detect(data, r.params.threshold, r.params.distance, r.params.pattern, r.params.signal.value,
                      c.options.fs).Success?
            ==> r.sep.Some? && Detected(c, data, r.params, r.sep.value)
    decreases |lines|
  {
    if lines != [] && !IsYes(PromptValue(lines[0], "Y")) {
      var q := PromptParams(lines[1..], p, c.parseReal);
      if q.complete && q.rest != [] && !IsYes(PromptValue(q.rest[0], "N")) {
        ReviewAcceptedFresh(c, data, q.params, AfterDetection(c, data, p, sep), q.rest[1..], clicks);
      }
    }
  }

  /** Manual cutting ends the loop with the truncated clicks of one non-empty round. */
  lemma {:induction false} ReviewManualIndices(c: Config, data: Table, p: Params, sep: Option<seq<int>>,
                                               lines: seq<string>, clicks: seq<seq<real>>)
    requires p.signal.Some?
    ensures var r := ReviewSpec(c, data, p, sep, lines, clicks);
            r.exit == ManualDone ==> r.sep.Some? && r.sep.value != [] && Clicked(clicks, r.sep.value)
    decreases |lines|
  {
    if lines != [] && !IsYes(PromptValue(lines[0], "Y")) {
      var q := PromptParams(lines[1..], p, c.parseReal);
      if q.complete && q.rest != [] && !IsYes(PromptValue(q.rest[0], "N")) {
        ReviewManualIndices(c, data, q.params, AfterDetection(c, data, p, sep), q.rest[1..], clicks);
      }
    }
  }

  // ---------------------------------------------------------------------
  // One record
  // ---------------------------------------------------------------------

  /** Why a record failed; the handler reports it and moves to the next record. */
  datatype RecordError =
    | LoadFailed
    | PrepareFailed(error: PrepareError)
    | Aborted              // an answer or a click round was asked for after the input ended
    | NoIndices            // saving before any indices were ever assigned (a NameError)
    | CycleSaveFailed
    | ParamsSaveFailed

  datatype Outcome = Skipped | Completed | Failed(error: RecordError)

  /** The message printed for one record. */
  datatype Report = Report(recordName: string, outcome: Outcome)

  /** Everything the session carries from one record to the next. */
  datatype World = World(store: Store, params: Params, sep: Option<seq<int>>, lines: seq<string>,
                         clicks: seq<seq<real>>, reports: seq<Report>)

  /**
   * Save the artifact, log the record, then save the parameters; a failed
   * artifact or parameter write raises and stops the sequence, a failed
   * log write only reports.
   */
  function Persist(s: Store, unwritable: set<string>, recordName: string, p: Params, indices: seq<int>)
    : (r: (Outcome, Store))
    ensures r.0 == Completed <==> CyclesFile(recordName) !in unwritable && LastParametersFile !in unwritable
    ensures r.0 != Completed ==> r.0 == Failed(CycleSaveFailed) || r.0 == Failed(ParamsSaveFailed)
    ensures CyclesFile(recordName) !in unwritable ==>
              HasBeenProcessed(r.1.files, recordName)
              && r.1.files[CyclesFile(recordName)] == CycleRecord(recordName, p, indices, Reading(s.clock))
    ensures r.0 == Completed ==> LoadLastParameters(r.1.files) == p
    ensures CyclesFile(recordName) in unwritable ==> r.1 == s.(clock := s.clock + 1)
    ensures |s.log| <= |r.1.log| && r.1.log[..|s.log|] == s.log
    ensures CyclesFile(recordName) !in unwritable && LogFile !in unwritable ==>
              r.1.log == s.log + [LogRow(recordName, Reading(s.clock + 1), CyclesFile(recordName), p)]
    ensures s.files.Keys <= r.1.files.Keys
  {
    var (saved, s1) := SaveCycleDataSpec(s, unwritable, recordName, p, indices);
    if !saved then (Failed(CycleSaveFailed), s1)
    else
      var s2 := LogProcessedRecordSpec(s1, unwritable, recordName, p);
      var (kept, s3) := SaveLastParametersSpec(s2, unwritable, p);
      CyclesFileReserved(recordName);
      assert s3.files[CyclesFile(recordName)] == s1.files[CyclesFile(recordName)];
      if kept then (Completed, s3) else (Failed(ParamsSaveFailed), s3)
  }

  /** Outcomes reached only after the artifact write was attempted. */
  predicate Persisting(o: Outcome) {
    o == Completed || o == Failed(CycleSaveFailed) || o == Failed(ParamsSaveFailed)
  }

  /**
   * A completed record: its artifact holds its final parameters and indices,
   * stamped with the clock reading taken when it was saved, and those
   * parameters are the ones the next run loads.
   */
  predicate Saved(unwritable: set<string>, before: Store, name: string, r: World) {
    r.sep.Some?
    && HasBeenProcessed(r.store.files, name)
    && r.store.files[CyclesFile(name)] == CycleRecord(name, r.params, r.sep.value, Reading(before.clock))
    && LoadLastParameters(r.store.files) == r.params
    && CyclesFile(name) !in unwritable && LastParametersFile !in unwritable
  }

  /** The result of a record: its report appended, the rest of the state replaced. */
  function Finish(w: World, recordName: string, outcome: Outcome, store: Store, p: Params,
                  sep: Option<seq<int>>, lines: seq<string>, clicks: seq<seq<real>>): (r: World)
    ensures |r.reports| == |w.reports| + 1 && r.reports[..|w.reports|] == w.reports
    ensures r.reports[|w.reports|] == Report(recordName, outcome)
    ensures r.store == store && r.params == p
  {
    World(store, p, sep, lines, clicks, w.reports + [Report(recordName, outcome)])
  }

  /**
   * A loaded and prepared record: the review loop, then persistence. The
   * loop's parameter changes and indices are kept even when the record fails.
   */
  function Process(c: Config, unwritable: set<string>, w: World, name: string, data: Table,
                   lines: seq<string>): (r: World)
    requires w.params.signal.Some?
    ensures |r.reports| == |w.reports| + 1 && r.reports[..|w.reports|] == w.reports
    ensures r.reports[|w.reports|].recordName == name
    ensures r.params.signal == w.params.signal
    ensures ParsePattern(w.params.pattern).Some? ==> ParsePattern(r.params.pattern).Some?
    ensures |w.store.log| <= |r.store.log| && r.store.log[..|w.store.log|] == w.store.log
    ensures w.store.files.Keys <= r.store.files.Keys
    ensures r.reports[|w.reports|].outcome == Completed ==> Saved(unwritable, w.store, name, r)
    ensures r.reports[|w.reports|].outcome != Skipped
    ensures !Persisting(r.reports[|w.reports|].outcome) ==> r.store == w.store
  {
    var rv := ReviewSpec(c, data, w.params, w.sep, lines, w.clicks);
    if rv.exit == InputEnded then
      Finish(w, name, Failed(Aborted), w.store, rv.params, rv.sep, rv.lines, rv.clicks)
    else if rv.sep.None? then
      Finish(w, name, Failed(NoIndices), w.store, rv.params, rv.sep, rv.lines, rv.clicks)
    else
      var (outcome, store) := Persist(w.store, unwritable, name, rv.params, rv.sep.value);
      Finish(w, name, outcome, store, rv.params, rv.sep, rv.lines, rv.clicks)
  }

  /** `load_data` and `prepare_data_for_cycle_detection`, then `Process`; a failure of either ends the record. */
  function Load(c: Config, unwritable: set<string>, w: World, name: string, path: string, lines: seq<string>)
    : (r: World)
    requires w.params.signal.Some?
    ensures |r.reports| == |w.reports| + 1 && r.reports[..|w.reports|] == w.reports
    ensures r.reports[|w.reports|].recordName == name
    ensures r.params.signal == w.params.signal
    ensures ParsePattern(w.params.pattern).Some? ==> ParsePattern(r.params.pattern).Some?
    ensures |w.store.log| <= |r.store.log| && r.store.log[..|w.store.log|] == w.store.log
    ensures w.store.files.Keys <= r.store.files.Keys
    ensures r.reports[|w.reports|].outcome == Completed ==> Saved(unwritable, w.store, name, r)
    ensures r.reports[|w.reports|].outcome != Skipped
    ensures !Persisting(r.reports[|w.reports|].outcome) ==> r.store == w.store
  {
    if path !in c.tables then Finish(w, name, Failed(LoadFailed), w.store, w.params, w.sep, lines, w.clicks)
    else match Prepare(c.tables[path], Some(c.options.fs), c.options.positionCol, "", c.zeroPhase)
      case Failure(e) => Finish(w, name, Failed(PrepareFailed(e)), w.store, w.params, w.sep, lines, w.clicks)
      case Success(data) => Process(c, unwritable, w, name, data, lines)
  }

  /**
   * One pass of the `for record_path in records` loop, with the
   * `try ... except Exception` around it: the reprocess gate (empty means
   * "N") for a record already processed, then `Load`.
   */
  function RecordStep(c: Config, unwritable: set<string>, w: World, e: Entry): (r: World)
    requires w.params.signal.Some?
    ensures |r.reports| == |w.reports| + 1 && r.reports[..|w.reports|] == w.reports
    ensures r.reports[|w.reports|].recordName == e.name
    ensures r.params.signal == w.params.signal
    ensures ParsePattern(w.params.pattern).Some? ==> ParsePattern(r.params.pattern).Some?
    ensures |w.store.log| <= |r.store.log| && r.store.log[..|w.store.log|] == w.store.log
    ensures w.store.files.Keys <= r.store.files.Keys
    ensures r.reports[|w.reports|].outcome == Completed ==> Saved(unwritable, w.store, e.name, r)
  {
    var gated := HasBeenProcessed(w.store.files, e.name);
    if gated && w.lines == [] then Finish(w, e.name, Failed(Aborted), w.store, w.params, w.sep, [], w.clicks)
    else if gated && !IsYes(PromptValue(w.lines[0], "N")) then
      Finish(w, e.name, Skipped, w.store, w.params, w.sep, w.lines[1..], w.clicks)
    else
      Load(c, unwritable, w, e.name, e.path, if gated then w.lines[1..] else w.lines)
  }

  /**
   * A record is skipped exactly when it was processed before and the
   * operator declines to reprocess it; skipping changes nothing but the input.
   */
  lemma RecordSkipped(c: Config, unwritable: set<string>, w: World, e: Entry)
    requires w.params.signal.Some?
    ensures var r := RecordStep(c, unwritable, w, e);
            r.reports[|w.reports|].outcome == Skipped
            <==> HasBeenProcessed(w.store.files, e.name) && w.lines != [] && !IsYes(PromptValue(w.lines[0], "N"))
    ensures var r := RecordStep(c, unwritable, w, e);
            r.reports[|w.reports|].outcome == Skipped
            ==> r == w.(lines := w.lines[1..], reports := r.reports)
  {
  }

  /** Nothing is written for a record that fails before its artifact is saved. */
  lemma RecordFailsCleanly(c: Config, unwritable: set<string>, w: World, e: Entry)
    requires w.params.signal.Some?
    ensures var r := RecordStep(c, unwritable, w, e);
            !Persisting(r.reports[|w.reports|].outcome) ==> r.store == w.store
  {
  }

  /** A completed record's indices come from a detection, a manual round, or the indices carried in. */
  lemma RecordCompletedIndices(c: Config, unwritable: set<string>, w: World, e: Entry)
    requires w.params.signal.Some?
    requires e.path in c.tables
    requires Prepare(c.tables[e.path], Some(c.options.fs), c.options.positionCol, "", c.zeroPhase).Success?
    ensures var r := RecordStep(c, unwritable, w, e);
            var data := Prepare(c.tables[e.path], Some(c.options.fs), c.options.positionCol, "", c.zeroPhase).value;
            r.reports[|w.reports|].outcome == Completed ==> Origin(c, data, w.clicks, w.sep, r.sep)
  {
    var gated := HasBeenProcessed(w.store.files, e.name);
    var data := Prepare(c.tables[e.path], Some(c.options.fs), c.options.positionCol, "", c.zeroPhase).value;
    if !(gated && (w.lines == [] || !IsYes(PromptValue(w.lines[0], "N")))) {
      ReviewIndicesOrigin(c, data, w.params, w.sep, if gated then w.lines[1..] else w.lines, w.clicks);
    }
  }

  // ---------------------------------------------------------------------
  // The whole run
  // ---------------------------------------------------------------------

  /** The records in order, each through `RecordStep`. */
  function Fold(c: Config, unwritable: set<string>, w: World, entries: seq<Entry>): (r: World)
    requires w.params.signal.Some?
    ensures r.params.signal == w.params.signal
    ensures |r.reports| == |w.reports| + |entries| && r.reports[..|w.reports|] == w.reports
    ensures |w.store.log| <= |r.store.log| && r.store.log[..|w.store.log|] == w.store.log
    ensures w.store.files.Keys <= r.store.files.Keys
    decreases |entries|
  {
    if entries == [] then w
    else
      var w1 := RecordStep(c, unwritable, w, entries[0]);
      var r := Fold(c, unwritable, w1, entries[1..]);
      assert r.reports[..|w.reports|] == w1.reports[..|w.reports|];
      assert r.store.log[..|w.store.log|] == w1.store.log[..|w.store.log|];
      r
  }

  /**
   * `main` after its parameters are set: no matching record ends the run
   * at once; otherwise each record's path is processed in listing order.
   */
  function RunSpec(c: Config, unwritable: set<string>, w: World, listing: seq<string>): (r: (bool, World))
    requires w.params.signal.Some?
    ensures !r.0 <==> Records(listing, c.options) == []
    ensures !r.0 ==> r.1 == w
    ensures r.0 ==> |r.1.reports| == |w.reports| + |Records(listing, c.options)|
  {
    var records := Records(listing, c.options);
    if records == [] then (false, w)
    else (true, Fold(c, unwritable, w, Entries(c.dataPath, records)))
  }

  /** The run reports on each record once, in the order of the entries. */
  lemma {:induction false} FoldReportsInOrder(c: Config, unwritable: set<string>, w: World, entries: seq<Entry>, k: nat)
    requires w.params.signal.Some? && k < |entries|
    ensures Fold(c, unwritable, w, entries).reports[|w.reports| + k].recordName == entries[k].name
    decreases |entries|
  {
    var w1 := RecordStep(c, unwritable, w, entries[0]);
    var r := Fold(c, unwritable, w1, entries[1..]);
    assert Fold(c, unwritable, w, entries) == r;
    if k == 0 {
      assert r.reports[..|w1.reports|] == w1.reports;
      assert r.reports[|w.reports|] == w1.reports[|w.reports|];
    } else {
      FoldReportsInOrder(c, unwritable, w1, entries[1..], k - 1);
      assert entries[1..][k - 1] == entries[k];
    }
  }

  /** Every record reported completed during the run has its artifact when the run ends. */
  lemma {:induction false} FoldCompletedProcessed(c: Config, unwritable: set<string>, w: World, entries: seq<Entry>,
                                                  k: nat)
    requires w.params.signal.Some?
    requires |w.reports| <= k < |w.reports| + |entries|
    requires Fold(c, unwritable, w, entries).reports[k].outcome == Completed
    ensures var r := Fold(c, unwritable, w, entries);
            HasBeenProcessed(r.store.files, r.reports[k].recordName)
    decreases |entries|
  {
    var w1 := RecordStep(c, unwritable, w, entries[0]);
    var r := Fold(c, unwritable, w1, entries[1..]);
    if k == |w.reports| {
      assert r.reports[k] == w1.reports[k] by {
        assert r.reports[..|w1.reports|] == w1.reports;
      }
      assert Saved(unwritable, w.store, entries[0].name, w1);
      assert CyclesFile(entries[0].name) in w1.store.files.Keys;
    } else {
      FoldCompletedProcessed(c, unwritable, w1, entries[1..], k);
    }
  }

  /** A record that was already processed stays processed. */
  lemma FoldKeepsProcessed(c: Config, unwritable: set<string>, w: World, entries: seq<Entry>,
                              name: string)
    requires w.params.signal.Some?
    requires HasBeenProcessed(w.store.files, name)
    ensures HasBeenProcessed(Fold(c, unwritable, w, entries).store.files, name)
  {
  }

  // ---------------------------------------------------------------------
  // The session, in place
  // ---------------------------------------------------------------------

  /**
   * `main`: the detection parameters, the last indices and the unread
   * operator input live in variables updated record after record; the
   * output directory is written through `OutputDir`.
   */
  class Session {
    const config: Config
    const dir: OutputDir
    var params: Params
    var sep: Option<seq<int>>
    var lines: seq<string>
    var clicks: seq<seq<real>>
    var reports: seq<Report>

    function State(): World
      reads this, dir
    {
      World(dir.Contents(), params, sep, lines, clicks, reports)
    }

    /** Load the stored parameters and apply the options to them. */
    constructor (config: Config, dir: OutputDir, lines: seq<string>, clicks: seq<seq<real>>)
      ensures this.config == config && this.dir == dir
      ensures State() == World(dir.Contents(), InitialParams(LoadLastParameters(dir.files), config.options),
                               None, lines, clicks, [])
      ensures params.signal.Some?
    {
      this.config := config;
      this.dir := dir;
      params := InitialParams(LoadLastParameters(dir.files), config.options);
      sep := None;
      this.lines := lines;
      this.clicks := clicks;
      reports := [];
    }

    /** The detect / review loop on prepared data. */
    method ReviewLoop(data: Table) returns (exit: Exit)
      requires params.signal.Some?
      modifies this
      ensures Review(exit, params, sep, lines, clicks) == ReviewSpec(config, data, old(params), old(sep), old(lines), old(clicks))
      ensures reports == old(reports)
    {
      ghost var goal := ReviewSpec(config, data, params, sep, lines, clicks);
      while true
        invariant params.signal.Some?
        invariant ReviewSpec(config, data, params, sep, lines, clicks) == goal
        invariant reports == old(reports)
        decreases |lines|
      {
        var done;
        done, exit := ReviewPass(data);
        if done {
          return;
        }
      }
    }

    /** One pass of the loop: detect, then ask whether the results are acceptable. */
    method ReviewPass(data: Table) returns (done: bool, exit: Exit)
      requires params.signal.Some?
      modifies this
      ensures params.signal.Some? && reports == old(reports)
      ensures done ==> Review(exit, params, sep, lines, clicks)
                       == ReviewSpec(config, data, old(params), old(sep), old(lines), old(clicks))
      ensures !done ==> |lines| < old(|lines|)
                        && ReviewSpec(config, data, params, sep, lines, clicks)
                           == ReviewSpec(config, data, old(params), old(sep), old(lines), old(clicks))
    {
      var detected := Detect(data, params.threshold, params.distance, params.pattern, params.signal.value, config.options.fs);
      if detected.Success? {
        sep := Some(detected.value);
      }
      if lines == [] {
        return true, InputEnded;
      }
      var accept := lines[0];
      lines := lines[1..];
      if IsYes(PromptValue(accept, "Y")) {
        return true, Accepted;
      }
      done, exit := RetunePass(data);
    }

    /** The rest of a pass after a "no": new parameters, then manual cutting or the next pass. */
    method RetunePass(data: Table) returns (done: bool, exit: Exit)
      requires params.signal.Some?
      modifies this
      ensures params.signal.Some? && reports == old(reports)
      ensures done ==> Review(exit, params, sep, lines, clicks)
                       == Retune(config, data, old(params), old(sep), old(lines), old(clicks))
      ensures !done ==> |lines| < old(|lines|)
                        && ReviewSpec(config, data, params, sep, lines, clicks)
                           == Retune(config, data, old(params), old(sep), old(lines), old(clicks))
    {
      var q := PromptParams(lines, params, config.parseReal);
      params := q.params;
      if !q.complete || q.rest == [] {
        lines := [];
        return true, InputEnded;
      }
      var manual := q.rest[0];
      lines := q.rest[1..];
      if IsYes(PromptValue(manual, "N")) {
        exit := ManualPhase();
        return true, exit;
      }
      return false, Accepted;
    }

    /** `manual_cutting` on the remaining input, and its indices as the last indices when confirmed. */
    method ManualPhase() returns (exit: Exit)
      modifies this
      ensures Review(exit, params, sep, lines, clicks) == ManualExit(old(params), old(sep), old(lines), old(clicks))
      ensures reports == old(reports)
    {
      var m := ManualCutting(clicks, lines);
      if m.Confirmed? {
        sep := Some(m.indices);
        exit := ManualDone;
      } else {
        exit := InputEnded;
      }
      lines, clicks := lines[m.answersUsed..], clicks[m.roundsUsed..];
    }

    /** One record, with its error containment. */
    method ProcessRecord(e: Entry)
      requires params.signal.Some?
      modifies this, dir
      ensures State() == RecordStep(config, dir.unwritable, old(State()), e)
      ensures params.signal.Some?
    {
      var name := e.name;
      if HasBeenProcessed(dir.files, name) {
        if lines == [] {
          reports := reports + [Report(name, Failed(Aborted))];
          return;
        }
        var reprocess := lines[0];
        lines := lines[1..];
        if !IsYes(PromptValue(reprocess, "N")) {
          reports := reports + [Report(name, Skipped)];
          return;
        }
      }
      if e.path !in config.tables {
        reports := reports + [Report(name, Failed(LoadFailed))];
        return;
      }
      var prepared := Prepare(config.tables[e.path], Some(config.options.fs), config.options.positionCol, "", config.zeroPhase);
      if prepared.Failure? {
        reports := reports + [Report(name, Failed(PrepareFailed(prepared.error)))];
        return;
      }
      var exit := ReviewLoop(prepared.value);
      if exit == InputEnded {
        reports := reports + [Report(name, Failed(Aborted))];
        return;
      }
      if sep.None? {
        reports := reports + [Report(name, Failed(NoIndices))];
        return;
      }
      var saved := dir.SaveCycleData(name, params, sep.value);
      if !saved {
        reports := reports + [Report(name, Failed(CycleSaveFailed))];
        return;
      }
      dir.LogProcessedRecord(name, params);
      var kept := dir.SaveLastParameters(params);
      reports := reports + [Report(name, if kept then Completed else Failed(ParamsSaveFailed))];
    }

    /** The record loop; `found` is false when no listed file is a record. */
    method Run(listing: seq<string>) returns (found: bool)
      requires params.signal.Some?
      modifies this, dir
      ensures (found, State()) == RunSpec(config, dir.unwritable, old(State()), listing)
    {
      var records := Records(listing, config.options);
      if records == [] {
        return false;
      }
      var entries := Entries(config.dataPath, records);
      ghost var goal := Fold(config, dir.unwritable, State(), entries);
      for i := 0 to |entries|
        invariant params.signal.Some?
        invariant Fold(config, dir.unwritable, State(), entries[i..]) == goal
      {
        ghost var before := State();
        assert entries[i..][0] == entries[i] && entries[i..][1..] == entries[i + 1..];
        assert goal == Fold(config, dir.unwritable, RecordStep(config, dir.unwritable, before, entries[i]), entries[i + 1..]);
        ProcessRecord(entries[i]);
      }
      assert entries[|entries|..] == [];
      return true;
    }
  }
}
