/**
 * Preparation gate, output-directory artifacts and the manual cutting loop.
 *
 * The output directory is a map from file name to the document stored under
 * it, plus the rows of the processing log and a clock whose readings stand
 * for `datetime.now()`. Writing a file named in `unwritable` fails.
 */
module CyclesUtils {
  import opened Wrappers
  import opened Common
  import opened Text

  // ---------------------------------------------------------------------
  // Preparation (`prepare_data_for_cycle_detection`)
  // ---------------------------------------------------------------------

  /** Why preparation raised. */
  datatype PrepareError =
    | NoPositionColumnName
    | PositionColumnMissing(column: string)
    | TooFewSamplesForGradient   // np.gradient needs at least two samples
    | NoSamplingRate             // `fs` missing or zero
    | CutoffOutOfRange(wn: real) // butter needs 0 < Wn < 1
    | TooFewSamplesForFilter     // filtfilt needs more samples than its padding (6)
    | VelocityColumnMissing      // a velocity column name leaves no Velocity column to smooth

  /** The low-pass cutoff frequency in Hz. */
  const Cutoff: real := 2.0

  /** `filtfilt`'s default padding for a first-order filter: 3 * max(len(a), len(b)). */
  const PadLen: nat := 6

  /** `np.gradient` with unit spacing: one-sided differences at the ends, central ones inside. */
  function Gradient(x: seq<real>): (g: seq<real>)
    requires |x| >= 2
    ensures |g| == |x|
  {
    seq(|x|, i requires 0 <= i < |x| =>
      if i == 0 then x[1] - x[0]
      else if i == |x| - 1 then x[i] - x[i - 1]
      else (x[i + 1] - x[i - 1]) / 2.0)
  }

  /** The gradient of a straight line is its slope everywhere. */
  lemma GradientOfLine(x: seq<real>, a: real, b: real)
    requires |x| >= 2 && forall i :: 0 <= i < |x| ==> x[i] == a + b * i as real
    ensures forall i :: 0 <= i < |x| ==> Gradient(x)[i] == b
  {
    var g := Gradient(x);
    forall i | 0 <= i < |x| ensures g[i] == b {
      if i == 0 {
        assert x[1] - x[0] == b;
      } else if i == |x| - 1 {
        assert x[i] - x[i - 1] == (a + b * i as real) - (a + b * (i - 1) as real);
      } else {
        assert x[i + 1] - x[i - 1] == (a + b * (i + 1) as real) - (a + b * (i - 1) as real);
      }
    }
  }

  /**
   * `smooth_data_low_pass(x, 2, fs)`: a first-order Butterworth low-pass
   * filter applied forwards and backwards. The filtered values come from
   * `zeroPhase`; the conditions under which SciPy raises are modelled.
   */
  function LowPass(x: seq<real>, fs: real, zeroPhase: (seq<real>, real) -> seq<real>)
    : (r: Result<seq<real>, PrepareError>)
    requires fs != 0.0
    ensures r.Success? <==> 0.0 < Cutoff / (0.5 * fs) < 1.0 && |x| > PadLen
    ensures r.Success? ==> r.value == zeroPhase(x, Cutoff / (0.5 * fs))
    ensures r.Failure? && !(0.0 < Cutoff / (0.5 * fs) < 1.0) ==> r.error == CutoffOutOfRange(Cutoff / (0.5 * fs))
  {
    var wn := Cutoff / (0.5 * fs);
    if !(0.0 < wn < 1.0) then Failure(CutoffOutOfRange(wn))
    else if |x| <= PadLen then Failure(TooFewSamplesForFilter)
    else Success(zeroPhase(x, wn))
  }

  /** The normalised cutoff is in range exactly when the sampling rate exceeds 4 Hz. */
  lemma CutoffInRange(fs: real)
    requires fs != 0.0
    ensures 0.0 < Cutoff / (0.5 * fs) < 1.0 <==> fs > 4.0
  {
    if fs > 0.0 {
      assert Cutoff / (0.5 * fs) * fs == 4.0;
    } else {
      assert Cutoff / (0.5 * fs) < 0.0;
    }
  }

  /** `if fs:` — a missing or zero sampling rate is falsy. */
  predicate Truthy(fs: Option<real>) {
    fs.Some? && fs.value != 0.0
  }

  /**
   * `prepare_data_for_cycle_detection` (the cli never passes a velocity
   * column name, so `velocityCol` is "" there): a table with the smoothed
   * Position column and the smoothed gradient of it as Velocity.
   */
  function Prepare(data: Table, fs: Option<real>, positionCol: string, velocityCol: string,
                   zeroPhase: (seq<real>, real) -> seq<real>): (r: Result<Table, PrepareError>)
    ensures positionCol == "" ==> r == Failure(NoPositionColumnName)
    ensures positionCol != "" && positionCol !in data ==> r == Failure(PositionColumnMissing(positionCol))
    ensures positionCol != "" && positionCol in data && velocityCol == "" && |data[positionCol]| < 2
            ==> r == Failure(TooFewSamplesForGradient)
    ensures (positionCol != "" && positionCol in data && (velocityCol != "" || |data[positionCol]| >= 2)
             && !Truthy(fs)) ==> r == Failure(NoSamplingRate)
    ensures r.Success? ==> r.value.Keys == {"Position", "Velocity"}
  {
    if positionCol == "" then Failure(NoPositionColumnName)
    else if positionCol !in data then Failure(PositionColumnMissing(positionCol))
    else
      var position := data[positionCol];
      if velocityCol == "" && |position| < 2 then Failure(TooFewSamplesForGradient)
      else if !Truthy(fs) then Failure(NoSamplingRate)
      else
        match LowPass(position, fs.value, zeroPhase)
        case Failure(e) => Failure(e)
        case Success(smoothPosition) =>
          if velocityCol != "" then Failure(VelocityColumnMissing)
          else
            match LowPass(Gradient(position), fs.value, zeroPhase)
            case Failure(e) => Failure(e)
            case Success(smoothVelocity) =>
              Success(map["Position" := smoothPosition, "Velocity" := smoothVelocity])
  }

  /**
   * Preparation succeeds exactly when the position column is named and
   * present, no velocity column name is given, the sampling rate exceeds
   * 4 Hz and the column holds more than 6 samples.
   */
  lemma PrepareSucceedsIff(data: Table, fs: Option<real>, positionCol: string, velocityCol: string,
                           zeroPhase: (seq<real>, real) -> seq<real>)
    ensures Prepare(data, fs, positionCol, velocityCol, zeroPhase).Success? <==>
              positionCol != "" && positionCol in data && velocityCol == ""
              && fs.Some? && fs.value > 4.0 && |data[positionCol]| > PadLen
  {
    if positionCol != "" && positionCol in data && fs.Some? && fs.value != 0.0 {
      CutoffInRange(fs.value);
    }
  }

  /**
   * The prepared series are the filtered position column and the filtered
   * gradient of it (Velocity is derived, never read); with a
   * length-preserving filter both have the column's length.
   */
  lemma PrepareSeries(data: Table, fs: Option<real>, positionCol: string, velocityCol: string,
                      zeroPhase: (seq<real>, real) -> seq<real>)
    requires Prepare(data, fs, positionCol, velocityCol, zeroPhase).Success?
    ensures var t := Prepare(data, fs, positionCol, velocityCol, zeroPhase).value;
            var wn := Cutoff / (0.5 * fs.value);
            |data[positionCol]| >= 2
            && t["Position"] == zeroPhase(data[positionCol], wn)
            && t["Velocity"] == zeroPhase(Gradient(data[positionCol]), wn)
    ensures (forall s: seq<real>, w: real :: |zeroPhase(s, w)| == |s|) ==>
              var t := Prepare(data, fs, positionCol, velocityCol, zeroPhase).value;
              |t["Position"]| == |data[positionCol]| && |t["Velocity"]| == |data[positionCol]|
  {
  }

  /** Preparation reads no column other than the position column. */
  lemma PrepareReadsOnlyPosition(data: Table, other: Table, fs: Option<real>, positionCol: string,
                                 velocityCol: string, zeroPhase: (seq<real>, real) -> seq<real>)
    requires positionCol in data <==> positionCol in other
    requires positionCol in data ==> data[positionCol] == other[positionCol]
    ensures Prepare(data, fs, positionCol, velocityCol, zeroPhase) == Prepare(other, fs, positionCol, velocityCol, zeroPhase)
  {
  }

  // ---------------------------------------------------------------------
  // Output-directory artifacts
  // ---------------------------------------------------------------------

  /** The detection parameters dictionary; `signal` is absent from the defaults. */
  datatype Params = Params(threshold: real, distance: real, pattern: string, signal: Option<string>)

  /** The parameters used when no readable parameter file exists. */
  const DefaultParams: Params := Params(1.0, 2.0, "both", None)

  /** A reading of the wall clock. */
  datatype Timestamp = Reading(tick: nat)

  /** What a file of the output directory holds. */
  datatype Document =
    | CycleRecord(recordName: string, parameters: Params, cycleIndices: seq<int>, timestamp: Timestamp)
    | ParameterRecord(parameters: Params)
    | Unreadable

  /** One row of the processing log. */
  datatype LogRow = LogRow(recordName: string, timestamp: Timestamp, cyclesFile: string, parameters: Params)

  /** The output directory: files, log rows and the clock. */
  datatype Store = Store(files: map<string, Document>, log: seq<LogRow>, clock: nat)

  const LastParametersFile: string := "last_parameters.json"
  const LogFile: string := "processed_records.log"
  const CyclesSuffix: string := "_cycles.json"

  /** The artifact file of a record. */
  function CyclesFile(recordName: string): (f: string)
    ensures |f| == |recordName| + |CyclesSuffix|
    ensures EndsWith(f, CyclesSuffix) && f[..|recordName|] == recordName
  {
    recordName + CyclesSuffix
  }

  /** Distinct records have distinct artifact files. */
  lemma CyclesFileInjective(a: string, b: string)
    requires CyclesFile(a) == CyclesFile(b)
    ensures a == b
  {
    assert a == CyclesFile(a)[..|a|];
  }

  /** No record's artifact file is the parameter file or the log file. */
  lemma CyclesFileReserved(recordName: string)
    ensures CyclesFile(recordName) != LastParametersFile
    ensures CyclesFile(recordName) != LogFile
  {
    var f := CyclesFile(recordName);
    assert EndsWith(f, CyclesSuffix);
    assert !EndsWith(LastParametersFile, CyclesSuffix) by {
      assert LastParametersFile[|LastParametersFile| - |CyclesSuffix|..] != CyclesSuffix by {
        assert LastParametersFile[|LastParametersFile| - 1] == 'n';
        assert CyclesSuffix[|CyclesSuffix| - 1] == 'n';
        assert LastParametersFile[|LastParametersFile| - 5] == '.';
        assert CyclesSuffix[|CyclesSuffix| - 5] == '.';
        assert LastParametersFile[|LastParametersFile| - 6] == 's';
        assert CyclesSuffix[|CyclesSuffix| - 6] == 's';
        assert LastParametersFile[|LastParametersFile| - 7] == 'r';
        assert CyclesSuffix[|CyclesSuffix| - 7] == 'e';
      }
    }
    assert !EndsWith(LogFile, CyclesSuffix) by {
      assert LogFile[|LogFile| - 1] == 'g';
    }
  }

  /** `has_been_processed`: the record's artifact file exists. */
  predicate HasBeenProcessed(files: map<string, Document>, recordName: string) {
    CyclesFile(recordName) in files
  }

  /** `load_last_parameters`: the stored parameters, or the defaults when missing or unreadable. */
  function LoadLastParameters(files: map<string, Document>): (p: Params)
    ensures LastParametersFile !in files ==> p == DefaultParams
    ensures LastParametersFile in files && files[LastParametersFile].ParameterRecord? ==>
              p == files[LastParametersFile].parameters
    ensures LastParametersFile in files && !files[LastParametersFile].ParameterRecord? ==> p == DefaultParams
  {
    if LastParametersFile in files && files[LastParametersFile].ParameterRecord? then
      files[LastParametersFile].parameters
    else DefaultParams
  }

  /** Files other than `f` are as they were. */
  ghost predicate OthersUnchanged(before: map<string, Document>, after: map<string, Document>, f: string) {
    forall g :: g != f ==> (g in after <==> g in before) && (g in before ==> after[g] == before[g])
  }

  /**
   * `save_cycle_data`: the clock is read before the write is attempted; on
   * success the artifact holds the name, parameters and indices unchanged.
   */
  function SaveCycleDataSpec(s: Store, unwritable: set<string>, recordName: string, p: Params, indices: seq<int>)
    : (r: (bool, Store))
    ensures r.0 <==> CyclesFile(recordName) !in unwritable
    ensures r.0 ==> HasBeenProcessed(r.1.files, recordName)
    ensures r.0 ==> r.1.files[CyclesFile(recordName)] == CycleRecord(recordName, p, indices, Reading(s.clock))
    ensures !r.0 ==> r.1.files == s.files
    ensures OthersUnchanged(s.files, r.1.files, CyclesFile(recordName))
    ensures r.1.log == s.log && r.1.clock == s.clock + 1
  {
    var f := CyclesFile(recordName);
    if f in unwritable then (false, s.(clock := s.clock + 1))
    else (true, Store(s.files[f := CycleRecord(recordName, p, indices, Reading(s.clock))], s.log, s.clock + 1))
  }

  /**
   * `log_processed_record`: appends one row naming the artifact file; a
   * failed write only reports, and the clock is read only once the file is open.
   */
  function LogProcessedRecordSpec(s: Store, unwritable: set<string>, recordName: string, p: Params)
    : (r: Store)
    ensures r.files == s.files
    ensures |s.log| <= |r.log| <= |s.log| + 1 && r.log[..|s.log|] == s.log
    ensures LogFile !in unwritable ==>
              |r.log| == |s.log| + 1
              && r.log[|s.log|] == LogRow(recordName, Reading(s.clock), CyclesFile(recordName), p)
              && r.clock == s.clock + 1
    ensures LogFile in unwritable ==> r == s
  {
    if LogFile in unwritable then s
    else Store(s.files, s.log + [LogRow(recordName, Reading(s.clock), CyclesFile(recordName), p)], s.clock + 1)
  }

  /** `save_last_parameters`: overwrite the parameter file. */
  function SaveLastParametersSpec(s: Store, unwritable: set<string>, p: Params): (r: (bool, Store))
    ensures r.0 <==> LastParametersFile !in unwritable
    ensures r.0 ==> LoadLastParameters(r.1.files) == p
    ensures !r.0 ==> r.1 == s
    ensures OthersUnchanged(s.files, r.1.files, LastParametersFile)
    ensures r.1.log == s.log && r.1.clock == s.clock
  {
    if LastParametersFile in unwritable then (false, s)
    else (true, s.(files := s.files[LastParametersFile := ParameterRecord(p)]))
  }

  /** Saving a record's artifact never changes which parameters are loaded, nor whether another record was processed. */
  lemma SaveCycleDataKeepsOthers(s: Store, unwritable: set<string>, recordName: string, p: Params,
                                 indices: seq<int>, other: string)
    requires other != recordName
    ensures var t := SaveCycleDataSpec(s, unwritable, recordName, p, indices).1;
            LoadLastParameters(t.files) == LoadLastParameters(s.files)
            && (HasBeenProcessed(t.files, other) <==> HasBeenProcessed(s.files, other))
  {
    CyclesFileReserved(recordName);
    if CyclesFile(other) == CyclesFile(recordName) {
      CyclesFileInjective(other, recordName);
    }
  }

  /** Saving parameters never changes whether a record was processed. */
  lemma SaveLastParametersKeepsArtifacts(s: Store, unwritable: set<string>, p: Params, recordName: string)
    ensures var t := SaveLastParametersSpec(s, unwritable, p).1;
            HasBeenProcessed(t.files, recordName) <==> HasBeenProcessed(s.files, recordName)
  {
    CyclesFileReserved(recordName);
  }

  /** The output directory, written in place. */
  class OutputDir {
    var files: map<string, Document>
    var log: seq<LogRow>
    var clock: nat
    const unwritable: set<string>

    function Contents(): Store
      reads this
    {
      Store(files, log, clock)
    }

    constructor (initial: Store, unwritable: set<string>)
      ensures Contents() == initial && this.unwritable == unwritable
    {
      files, log, clock := initial.files, initial.log, initial.clock;
      this.unwritable := unwritable;
    }

    method SaveCycleData(recordName: string, p: Params, indices: seq<int>) returns (ok: bool)
      modifies this
      ensures (ok, Contents()) == SaveCycleDataSpec(old(Contents()), unwritable, recordName, p, indices)
    {
      var timestamp := Reading(clock);
      clock := clock + 1;
      var outputFile := CyclesFile(recordName);
      if outputFile in unwritable {
        ok := false;
      } else {
        files := files[outputFile := CycleRecord(recordName, p, indices, timestamp)];
        ok := true;
      }
    }

    method LogProcessedRecord(recordName: string, p: Params)
      modifies this
      ensures Contents() == LogProcessedRecordSpec(old(Contents()), unwritable, recordName, p)
    {
      if LogFile !in unwritable {
        var timestamp := Reading(clock);
        clock := clock + 1;
        log := log + [LogRow(recordName, timestamp, CyclesFile(recordName), p)];
      }
    }

    method SaveLastParameters(p: Params) returns (ok: bool)
      modifies this
      ensures (ok, Contents()) == SaveLastParametersSpec(old(Contents()), unwritable, p)
    {
      if LastParametersFile in unwritable {
        ok := false;
      } else {
        files := files[LastParametersFile := ParameterRecord(p)];
        ok := true;
      }
    }
  }

  // ---------------------------------------------------------------------
  // Manual cutting (`manual_cutting`)
  // ---------------------------------------------------------------------

  /** `[int(x[0]) for x in points]`: each click's x coordinate truncated toward zero, in click order. */
  function TruncAll(xs: seq<real>): (r: seq<int>)
    ensures |r| == |xs|
    ensures forall i :: 0 <= i < |xs| && 0.0 <= xs[i] ==> r[i] as real <= xs[i] < r[i] as real + 1.0
    ensures forall i :: 0 <= i < |xs| && xs[i] < 0.0 ==> r[i] as real - 1.0 < xs[i] <= r[i] as real
  {
    seq(|xs|, i requires 0 <= i < |xs| => Trunc(xs[i]))
  }

  /**
   * How a manual cutting session ended: confirmed indices, or input ran out
   * (click's Abort); both say how many selection rounds and confirmation
   * answers were consumed.
   */
  datatype ManualResult =
    | Confirmed(indices: seq<int>, roundsUsed: nat, answersUsed: nat)
    | OutOfInput(roundsUsed: nat, answersUsed: nat)

  /** The result of a session that started after `rounds` rounds and `answers` answers were consumed. */
  function Shift(r: ManualResult, rounds: nat, answers: nat): ManualResult {
    match r
    case Confirmed(s, u, a) => Confirmed(s, u + rounds, a + answers)
    case OutOfInput(u, a) => OutOfInput(u + rounds, a + answers)
  }

  /** Whether each confirmation answer accepts the cuts (an empty answer means "Y"). */
  function Decisions(answers: seq<string>): (yes: seq<bool>)
    ensures |yes| == |answers|
    ensures forall i :: 0 <= i < |answers| ==> yes[i] == IsYes(PromptValue(answers[i], "Y"))
  {
    seq(|answers|, i requires 0 <= i < |answers| => IsYes(PromptValue(answers[i], "Y")))
  }

  /** The decisions of the answers left after `k` have been consumed. */
  lemma DecisionsDrop(answers: seq<string>, k: nat)
    requires k <= |answers|
    ensures Decisions(answers[k..]) == Decisions(answers)[k..]
  {
  }

  /**
   * The selection loop over the answers' decisions: each round's clicks
   * become indices; an empty selection restarts without asking; otherwise
   * the next decision either ends the loop or restarts it.
   */
  function ManualOn(rounds: seq<seq<real>>, yes: seq<bool>): (r: ManualResult)
    ensures r.roundsUsed <= |rounds| && r.answersUsed <= |yes|
    ensures r.Confirmed? ==> r.indices != [] && r.roundsUsed >= 1 && r.answersUsed >= 1
    ensures r.Confirmed? ==> r.indices == TruncAll(rounds[r.roundsUsed - 1])
    decreases |rounds|
  {
    if rounds == [] then OutOfInput(0, 0)
    else
      var sepIndices := TruncAll(rounds[0]);
      if sepIndices == [] then Shift(ManualOn(rounds[1..], yes), 1, 0)
      else if yes == [] then OutOfInput(1, 0)
      else if yes[0] then Confirmed(sepIndices, 1, 1)
      else Shift(ManualOn(rounds[1..], yes[1..]), 1, 1)
  }

  /** `manual_cutting` given the clicks of each selection round and the confirmation answers. */
  function ManualSpec(rounds: seq<seq<real>>, answers: seq<string>): (r: ManualResult)
    ensures r.roundsUsed <= |rounds| && r.answersUsed <= |answers|
    ensures r.Confirmed? ==> r.indices != [] && r.roundsUsed >= 1 && r.answersUsed >= 1
    ensures r.Confirmed? ==> r.indices == TruncAll(rounds[r.roundsUsed - 1])
  {
    ManualOn(rounds, Decisions(answers))
  }

  /** One round of the loop, as the rest of the loop sees it. */
  lemma ManualStep(rs: seq<seq<real>>, ys: seq<bool>, used: nat, answered: nat)
    requires rs != []
    ensures rs[0] == [] ==>
              Shift(ManualOn(rs, ys), used, answered) == Shift(ManualOn(rs[1..], ys), used + 1, answered)
    ensures rs[0] != [] && ys != [] && !ys[0] ==>
              Shift(ManualOn(rs, ys), used, answered) == Shift(ManualOn(rs[1..], ys[1..]), used + 1, answered + 1)
    ensures rs[0] != [] && ys != [] && ys[0] ==>
              Shift(ManualOn(rs, ys), used, answered) == Confirmed(TruncAll(rs[0]), used + 1, answered + 1)
    ensures rs[0] != [] && ys == [] ==>
              Shift(ManualOn(rs, ys), used, answered) == OutOfInput(used + 1, answered)
  {
    assert TruncAll(rs[0]) == [] <==> rs[0] == [];
  }

  /** `manual_cutting`'s `while True` loop. */
  method ManualCutting(rounds: seq<seq<real>>, answers: seq<string>) returns (r: ManualResult)
    ensures r == ManualSpec(rounds, answers)
  {
    ghost var yes := Decisions(answers);
    var used, answered := 0, 0;
    while true
      invariant 0 <= used <= |rounds| && 0 <= answered <= |answers|
      invariant ManualOn(rounds, yes) == Shift(ManualOn(rounds[used..], yes[answered..]), used, answered)
      decreases |rounds| - used
    {
      if used == |rounds| {
        return OutOfInput(used, answered);
      }
      ghost var rs, ys := rounds[used..], yes[answered..];
      assert rs[0] == rounds[used] && rs[1..] == rounds[used + 1..];
      assert answered < |answers| ==> ys[0] == yes[answered] && ys[1..] == yes[answered + 1..];
      ManualStep(rs, ys, used, answered);
      var sepIndices := TruncAll(rounds[used]);
      used := used + 1;
      if sepIndices == [] {
        continue;
      }
      if answered == |answers| {
        return OutOfInput(used, answered);
      }
      var validate := PromptValue(answers[answered], "Y");
      var accepted := IsYes(validate);
      assert accepted == yes[answered];
      answered := answered + 1;
      if accepted {
        return Confirmed(sepIndices, used, answered);
      }
    }
  }

  /** The number of confirmation questions asked before round `j`: one per non-empty round. */
  function Asked(rounds: seq<seq<real>>, j: nat): (n: nat)
    requires j <= |rounds|
    ensures n <= j
  {
    if j == 0 then 0 else Asked(rounds, j - 1) + (if rounds[j - 1] != [] then 1 else 0)
  }

  /** More rounds never ask fewer questions. */
  lemma {:induction false} AskedMonotone(rounds: seq<seq<real>>, i: nat, j: nat)
    requires i <= j <= |rounds|
    ensures Asked(rounds, i) <= Asked(rounds, j)
    decreases j - i
  {
    if i < j {
      AskedMonotone(rounds, i, j - 1);
    }
  }

  /** Dropping the first round shifts every count by that round's question. */
  lemma {:induction false} AskedTail(rounds: seq<seq<real>>, j: nat)
    requires 0 < |rounds| && j < |rounds|
    ensures Asked(rounds, j + 1) == Asked(rounds[1..], j) + (if rounds[0] != [] then 1 else 0)
  {
    if j > 0 {
      AskedTail(rounds, j - 1);
    }
  }

  /** Round `j` is non-empty and the decision on the question it asks is yes. */
  predicate Confirms(rounds: seq<seq<real>>, yes: seq<bool>, j: nat)
    requires j < |rounds|
  {
    rounds[j] != [] && Asked(rounds, j) < |yes| && yes[Asked(rounds, j)]
  }

  /** The decisions left after the first round: it consumed one only if it asked. */
  function AfterFirst(rounds: seq<seq<real>>, yes: seq<bool>): seq<bool>
    requires 0 < |rounds| && (rounds[0] != [] ==> |yes| > 0)
  {
    if rounds[0] != [] then yes[1..] else yes
  }

  /**
   * A first round that is empty or answered "no" restarts the loop: the
   * result is that of the remaining rounds and decisions, and a later round
   * confirms exactly when it confirms among the remaining ones.
   */
  lemma ManualRestart(rounds: seq<seq<real>>, yes: seq<bool>)
    requires 0 < |rounds|
    requires rounds[0] != [] ==> |yes| > 0 && !yes[0]
    ensures ManualOn(rounds, yes)
            == Shift(ManualOn(rounds[1..], AfterFirst(rounds, yes)), 1, if rounds[0] != [] then 1 else 0)
    ensures !Confirms(rounds, yes, 0)
    ensures forall j :: 0 <= j < |rounds| - 1 ==>
              (Confirms(rounds, yes, j + 1) <==> Confirms(rounds[1..], AfterFirst(rounds, yes), j))
  {
    assert TruncAll(rounds[0]) == [] <==> rounds[0] == [];
    forall j | 0 <= j < |rounds| - 1
      ensures Confirms(rounds, yes, j + 1) <==> Confirms(rounds[1..], AfterFirst(rounds, yes), j)
    {
      AskedTail(rounds, j);
    }
  }

  /** When input runs out, no round confirms. */
  lemma {:induction false} ManualOutOfInput(rounds: seq<seq<real>>, yes: seq<bool>)
    requires ManualOn(rounds, yes).OutOfInput?
    ensures forall j :: 0 <= j < |rounds| ==> !Confirms(rounds, yes, j)
    decreases |rounds|
  {
    if rounds == [] {
    } else if rounds[0] != [] && yes == [] {
      // input runs out at the first question
      forall j | 0 <= j < |rounds| ensures !Confirms(rounds, yes, j) {
        AskedMonotone(rounds, 0, j);
      }
    } else {
      var rest := AfterFirst(rounds, yes);
      ManualRestart(rounds, yes);
      ManualOutOfInput(rounds[1..], rest);
      forall j | 0 <= j < |rounds| ensures !Confirms(rounds, yes, j) {
        if j > 0 {
          assert !Confirms(rounds[1..], rest, j - 1);
        }
      }
    }
  }

  /**
   * Confirmed indices come from the FIRST round that confirms (they are
   * that round's clicks, truncated, in click order, by `ManualOn`'s
   * contract), and one answer was consumed per non-empty round up to it.
   */
  lemma {:induction false} ManualConfirmedIsFirst(rounds: seq<seq<real>>, yes: seq<bool>)
    requires ManualOn(rounds, yes).Confirmed?
    ensures var r := ManualOn(rounds, yes);
            Confirms(rounds, yes, r.roundsUsed - 1)
            && (forall j :: 0 <= j < r.roundsUsed - 1 ==> !Confirms(rounds, yes, j))
            && r.answersUsed == Asked(rounds, r.roundsUsed - 1) + 1
    decreases |rounds|
  {
    var r := ManualOn(rounds, yes);
    if rounds[0] != [] && yes[0] {
      assert Confirms(rounds, yes, 0);
    } else {
      var rest := AfterFirst(rounds, yes);
      ManualRestart(rounds, yes);
      ManualConfirmedIsFirst(rounds[1..], rest);
      var u := r.roundsUsed - 1;
      assert Confirms(rounds[1..], rest, u - 1);
      AskedTail(rounds, u - 1);
      forall j | 0 <= j < u ensures !Confirms(rounds, yes, j) {
        if j > 0 {
          assert !Confirms(rounds[1..], rest, j - 1);
        }
      }
    }
  }

  /** The loop ends with confirmed indices exactly when some round confirms. */
  lemma ManualConfirmsIff(rounds: seq<seq<real>>, yes: seq<bool>)
    ensures ManualOn(rounds, yes).Confirmed? <==> exists j :: 0 <= j < |rounds| && Confirms(rounds, yes, j)
  {
    if ManualOn(rounds, yes).Confirmed? {
      ManualConfirmedIsFirst(rounds, yes);
    } else {
      ManualOutOfInput(rounds, yes);
    }
  }
}
