/**
 * The program's entry point, from main.rs: pick the input (`.` by
 * default), process it directly when it is a regular file, otherwise scan
 * it and process the pending files in order, stopping at the first failure.
 */
module Driver {
  import opened Wrappers
  import opened Paths
  import opened Effects
  import opened Config
  import opened FileUtils

  /** `args.input`, or `.` when none was given. */
  function InputPath(args: Args): Path {
    args.input.GetOr(CurrentDir)
  }

  lemma InputDefaultsToCurrentDir(args: Args)
    ensures args.input.None? ==> InputPath(args) == Path([CurDir])
    ensures args.input.Some? ==> InputPath(args) == args.input.value
  {
  }

  predicate AllNamed(files: seq<Path>) {
    forall k :: 0 <= k < |files| ==> FileName(files[k]).Some?
  }

  /** What `process_file` does for each file, with the run's dry-run flag. */
  function Outcomes(files: seq<Path>, args: Args, env: Env): seq<Traced<Result<(), Error>>>
    requires AllNamed(files)
  {
    seq(|files|, k requires 0 <= k < |files| => ProcessSpec(files[k], args, args.dryRun, env))
  }

  /**
   * The loop over the files, given what each call does: the calls happen in
   * order, and the first failure ends the run with that file named.
   */
  function InOrder(files: seq<Path>, outcomes: seq<Traced<Result<(), Error>>>): Traced<Result<(), Error>>
    requires |outcomes| == |files|
  {
    if files == [] then Traced(Ok(()), [])
    else if outcomes[0].value.Err? then
      Traced(Err(Processing(files[0], outcomes[0].value.error)), outcomes[0].trace)
    else
      var rest := InOrder(files[1..], outcomes[1..]);
      Traced(rest.value, outcomes[0].trace + rest.trace)
  }

  /** Process the files in order with the run's dry-run flag; the first failure ends the run. */
  function ProcessAll(files: seq<Path>, args: Args, env: Env): Traced<Result<(), Error>>
    requires AllNamed(files)
  {
    InOrder(files, Outcomes(files, args, env))
  }

  /** The position of the first failed call, or the number of calls when none fails. */
  function FirstFailure(outcomes: seq<Traced<Result<(), Error>>>): (k: nat)
    ensures k <= |outcomes|
    ensures forall j :: 0 <= j < k ==> outcomes[j].value.Ok?
    ensures k < |outcomes| ==> outcomes[k].value.Err?
  {
    if outcomes == [] then 0
    else if outcomes[0].value.Err? then 0
    else 1 + FirstFailure(outcomes[1..])
  }

  /** What one run does: the result `main` returns and every action it performs. */
  function RunSpec(args: Args, env: Env): Traced<Result<(), Error>>
    requires Coherent(env)
  {
    var input := InputPath(args);
    if env.isFile(input) then
      var t := ProcessSpec(input, args, args.dryRun, env);
      Traced(if t.value.Err? then Err(ProcessingFile(t.value.error)) else Ok(()), t.trace)
    else
      var walk := env.walk(input);
      var files := PendingFiles(walk, env);
      PendingFilesNamed(walk, env);
      var t := ProcessAll(files, args, env);
      Traced(t.value, [Walk(input)] + ScanProbes(walk, env) + t.trace)
  }

  /** The pending files of a coherent world all have file names. */
  lemma PendingFilesNamed(walk: seq<Result<Path, WalkError>>, env: Env)
    requires Coherent(env)
    ensures AllNamed(PendingFiles(walk, env))
  {
    var files := PendingFiles(walk, env);
    forall k | 0 <= k < |files|
      ensures FileName(files[k]).Some?
    {
      PendingMembership(walk, env, files[k]);
      assert env.isFile(files[k]);
    }
  }

  /** The loop from the `i`-th file on: that call, then the rest unless it failed. */
  lemma InOrderStep(files: seq<Path>, outcomes: seq<Traced<Result<(), Error>>>, i: nat)
    requires |outcomes| == |files| && i < |files|
    ensures InOrder(files[i..], outcomes[i..])
      == if outcomes[i].value.Err? then Traced(Err(Processing(files[i], outcomes[i].value.error)), outcomes[i].trace)
         else Traced(InOrder(files[i + 1..], outcomes[i + 1..]).value,
                     outcomes[i].trace + InOrder(files[i + 1..], outcomes[i + 1..]).trace)
  {
    assert files[i..][0] == files[i] && files[i..][1..] == files[i + 1..];
    assert outcomes[i..][0] == outcomes[i] && outcomes[i..][1..] == outcomes[i + 1..];
  }

  /**
   * When each call reports its own file, the files reported are those up
   * to and including the first that fails, in order, and no further.
   */
  lemma {:induction false} InOrderStopsAtFirstFailure(files: seq<Path>, outcomes: seq<Traced<Result<(), Error>>>)
    requires |outcomes| == |files|
    requires forall k :: 0 <= k < |files| ==> Processed(outcomes[k].trace) == [files[k]]
    ensures var k := FirstFailure(outcomes);
      Processed(InOrder(files, outcomes).trace) == files[..if k < |files| then k + 1 else k]
  {
    if files != [] {
      assert Processed(outcomes[0].trace) == [files[0]];
      if outcomes[0].value.Err? {
        assert files[..1] == [files[0]];
      } else {
        var rest := InOrder(files[1..], outcomes[1..]);
        forall j | 0 <= j < |files| - 1
          ensures Processed(outcomes[1..][j].trace) == [files[1..][j]]
        {
          assert outcomes[1..][j] == outcomes[j + 1] && files[1..][j] == files[j + 1];
        }
        InOrderStopsAtFirstFailure(files[1..], outcomes[1..]);
        ProcessedConcat(outcomes[0].trace, rest.trace);
        var k := FirstFailure(outcomes[1..]);
        assert FirstFailure(outcomes) == k + 1;
        var n := if k < |files| - 1 then k + 1 else k;
        assert Processed(InOrder(files, outcomes).trace) == [files[0]] + files[1..][..n];
        assert [files[0]] + files[1..][..n] == files[..n + 1];
      }
    }
  }

  /**
   * The loop succeeds exactly when every call does, and a failure is
   * reported with the first failing file and that call's own error.
   */
  lemma {:induction false} InOrderOutcome(files: seq<Path>, outcomes: seq<Traced<Result<(), Error>>>)
    requires |outcomes| == |files|
    ensures InOrder(files, outcomes).value.Ok? <==> FirstFailure(outcomes) == |files|
    ensures InOrder(files, outcomes).value.Ok? <==> forall j :: 0 <= j < |files| ==> outcomes[j].value.Ok?
    ensures var k := FirstFailure(outcomes);
      k < |files| ==> InOrder(files, outcomes).value == Err(Processing(files[k], outcomes[k].value.error))
  {
    if files != [] && outcomes[0].value.Ok? {
      InOrderOutcome(files[1..], outcomes[1..]);
      assert forall j :: 0 <= j < |files[1..]| ==> files[1..][j] == files[j + 1] && outcomes[1..][j] == outcomes[j + 1];
    }
  }

  /**
   * Every action of a call up to and including the first failure is an
   * action of the loop.
   */
  lemma {:induction false} InOrderKeepsCallsUpToFailure(files: seq<Path>, outcomes: seq<Traced<Result<(), Error>>>, j: nat, a: Action)
    requires |outcomes| == |files| && j < |files| && j <= FirstFailure(outcomes)
    requires a in outcomes[j].trace
    ensures a in InOrder(files, outcomes).trace
  {
    if j > 0 {
      assert outcomes[0].value.Ok?;
      assert FirstFailure(outcomes[1..]) == FirstFailure(outcomes) - 1;
      assert outcomes[1..][j - 1] == outcomes[j];
      InOrderKeepsCallsUpToFailure(files[1..], outcomes[1..], j - 1, a);
    }
  }

  /** When every call succeeds without changing anything, so does the loop. */
  lemma {:induction false} InOrderChangesNothing(files: seq<Path>, outcomes: seq<Traced<Result<(), Error>>>)
    requires |outcomes| == |files|
    requires forall k :: 0 <= k < |files| ==> outcomes[k].value.Ok? && ChangesNothing(outcomes[k].trace)
    ensures InOrder(files, outcomes).value.Ok?
    ensures ChangesNothing(InOrder(files, outcomes).trace)
  {
    if files != [] {
      assert forall k :: 0 <= k < |files[1..]| ==> outcomes[1..][k] == outcomes[k + 1];
      InOrderChangesNothing(files[1..], outcomes[1..]);
      ChangesNothingConcat(outcomes[0].trace, InOrder(files[1..], outcomes[1..]).trace);
    }
  }

  /**
   * Over the pending files: they are processed in order up to and including
   * the first failure and no further, and the loop succeeds exactly when
   * every call does, otherwise failing with the first failing file's error.
   */
  lemma ProcessAllStopsAtFirstFailure(files: seq<Path>, args: Args, env: Env)
    requires AllNamed(files)
    ensures var k := FirstFailure(Outcomes(files, args, env));
      Processed(ProcessAll(files, args, env).trace) == files[..if k < |files| then k + 1 else k]
    ensures ProcessAll(files, args, env).value.Ok? <==>
      forall j :: 0 <= j < |files| ==> ProcessSpec(files[j], args, args.dryRun, env).value.Ok?
    ensures var k := FirstFailure(Outcomes(files, args, env));
      k < |files| ==>
        ProcessAll(files, args, env).value == Err(Processing(files[k], ProcessSpec(files[k], args, args.dryRun, env).value.error))
  {
    var outcomes := Outcomes(files, args, env);
    forall k | 0 <= k < |files|
      ensures Processed(outcomes[k].trace) == [files[k]]
    {
      ProcessReportsItsFile(files[k], args, args.dryRun, env);
    }
    InOrderStopsAtFirstFailure(files, outcomes);
    InOrderOutcome(files, outcomes);
  }

  /** In a dry run every file succeeds and nothing is backed up or encoded. */
  lemma ProcessAllDryRun(files: seq<Path>, args: Args, env: Env)
    requires AllNamed(files) && args.dryRun
    ensures ProcessAll(files, args, env).value.Ok?
    ensures ChangesNothing(ProcessAll(files, args, env).trace)
  {
    var outcomes := Outcomes(files, args, env);
    forall k | 0 <= k < |files|
      ensures outcomes[k].value.Ok? && ChangesNothing(outcomes[k].trace)
    {
      DryRunChangesNothing(files[k], args, env);
    }
    InOrderChangesNothing(files, outcomes);
  }

  /**
   * Without dry run, every file before the first failure has been copied to
   * the backup directory and re-encoded into its output path.
   */
  lemma ProcessAllBacksUpAndEncodes(files: seq<Path>, args: Args, env: Env)
    requires AllNamed(files) && !args.dryRun
    ensures var k := FirstFailure(Outcomes(files, args, env));
      forall j :: 0 <= j < k ==>
        && Copy(files[j], BackupDest(files[j], BackupDir)) in ProcessAll(files, args, env).trace
        && RunFfmpeg(FfmpegArgv(files[j], args.preset, args.crf, GetOutputPath(files[j], OutputSuffix)))
             in ProcessAll(files, args, env).trace
  {
    var outcomes := Outcomes(files, args, env);
    var k := FirstFailure(outcomes);
    forall j | 0 <= j < k
      ensures Copy(files[j], BackupDest(files[j], BackupDir)) in ProcessAll(files, args, env).trace
      ensures RunFfmpeg(FfmpegArgv(files[j], args.preset, args.crf, GetOutputPath(files[j], OutputSuffix)))
                in ProcessAll(files, args, env).trace
    {
      var f := files[j];
      var t := outcomes[j].trace;
      assert outcomes[j] == ProcessSpec(f, args, false, env);
      ProcessOutcome(f, args, env);
      EncodeOnlyAfterBackup(f, args, env);
      assert Copy(f, BackupDest(f, BackupDir)) in t;
      assert t[|t| - 1] in t;
      InOrderKeepsCallsUpToFailure(files, outcomes, j, Copy(f, BackupDest(f, BackupDir)));
      InOrderKeepsCallsUpToFailure(files, outcomes, j, t[|t| - 1]);
    }
  }

  /**
   * An input that is a regular file is processed once, by itself, and the
   * directory scan never starts; the run succeeds exactly when that call does.
   */
  lemma RunOnFile(args: Args, env: Env)
    requires Coherent(env) && env.isFile(InputPath(args))
    ensures Processed(RunSpec(args, env).trace) == [InputPath(args)]
    ensures !Walks(RunSpec(args, env).trace)
    ensures RunSpec(args, env).value.Ok? <==> ProcessSpec(InputPath(args), args, args.dryRun, env).value.Ok?
  {
    ProcessReportsItsFile(InputPath(args), args, args.dryRun, env);
  }

  /**
   * Any other input is scanned first; then the pending files are processed
   * in the order the scan returned them, up to and including the first that
   * fails; the run succeeds exactly when every one of them does.
   */
  lemma RunOnDirectory(args: Args, env: Env)
    requires Coherent(env) && !env.isFile(InputPath(args))
    ensures RunSpec(args, env).trace[0] == Walk(InputPath(args))
    ensures var files := PendingFiles(env.walk(InputPath(args)), env);
      AllNamed(files) &&
      var k := FirstFailure(Outcomes(files, args, env));
      Processed(RunSpec(args, env).trace) == files[..if k < |files| then k + 1 else k]
    ensures var files := PendingFiles(env.walk(InputPath(args)), env);
      AllNamed(files) &&
      (RunSpec(args, env).value.Ok? <==>
        forall j :: 0 <= j < |files| ==> ProcessSpec(files[j], args, args.dryRun, env).value.Ok?)
  {
    var input := InputPath(args);
    var walk := env.walk(input);
    var files := PendingFiles(walk, env);
    PendingFilesNamed(walk, env);
    var t := ProcessAll(files, args, env);
    ProcessAllStopsAtFirstFailure(files, args, env);
    ScanChangesNothing(walk, env);
    ProcessedConcat([Walk(input)] + ScanProbes(walk, env), t.trace);
    ProcessedConcat([Walk(input)], ScanProbes(walk, env));
  }

  /** A dry run succeeds, and nothing is backed up or encoded, whatever the input. */
  lemma RunDryRun(args: Args, env: Env)
    requires Coherent(env) && args.dryRun
    ensures RunSpec(args, env).value.Ok?
    ensures ChangesNothing(RunSpec(args, env).trace)
  {
    var input := InputPath(args);
    if env.isFile(input) {
      DryRunChangesNothing(input, args, env);
    } else {
      var walk := env.walk(input);
      var files := PendingFiles(walk, env);
      PendingFilesNamed(walk, env);
      ProcessAllDryRun(files, args, env);
      ScanChangesNothing(walk, env);
      ChangesNothingConcat([Walk(input)], ScanProbes(walk, env));
      ChangesNothingConcat([Walk(input)] + ScanProbes(walk, env), ProcessAll(files, args, env).trace);
    }
  }

  /** With the declared defaults the encoder is asked for preset "medium" and CRF "22". */
  lemma DefaultEncoderSettings(cl: CommandLine, input: Path, out: Path)
    requires cl.preset.None? && cl.crf.None?
    ensures var argv := FfmpegArgv(input, Resolve(cl).preset, Resolve(cl).crf, out);
      argv[5] == Lit("-preset") && argv[6] == Lit("medium") && argv[7] == Lit("-crf") && argv[8] == Lit("22")
  {
    assert Decimal.Render(22) == "22";
  }

  /**
   * `main`: the input is `.` when none is given; a regular file is
   * processed directly; anything else is scanned and its pending files are
   * processed in order, the first failure ending the run.
   */
  method Run(host: Host, args: Args) returns (r: Result<(), Error>)
    requires Coherent(host.env)
    modifies host
    ensures r == RunSpec(args, host.env).value
    ensures host.trace == old(host.trace) + RunSpec(args, host.env).trace
  {
    var input := InputPath(args);
    var isFile := host.IsFile(input);
    if isFile {
      var res := host.ProcessFile(input, args, args.dryRun);
      if res.Err? {
        return Err(ProcessingFile(res.error));
      }
      return Ok(());
    }

    ghost var walk := host.env.walk(input);
    ghost var before := host.trace;
    var scan := host.FindPendingFiles(input);
    // The scan always succeeds, so its `?` never ends the run here.
    var files := scan.value;
    PendingFilesNamed(walk, host.env);
    r := ProcessEach(host, files, args);
    ghost var scanned := [Walk(input)] + ScanProbes(walk, host.env);
    AppendAssoc(before, [Walk(input)], ScanProbes(walk, host.env));
    AppendAssoc(before, scanned, ProcessAll(files, args, host.env).trace);
  }

  /** The `for` loop of `main`: each file in turn, returning at the first failure. */
  method ProcessEach(host: Host, files: seq<Path>, args: Args) returns (r: Result<(), Error>)
    requires AllNamed(files)
    modifies host
    ensures r == ProcessAll(files, args, host.env).value
    ensures host.trace == old(host.trace) + ProcessAll(files, args, host.env).trace
  {
    ghost var outcomes := Outcomes(files, args, host.env);
    ghost var whole := InOrder(files, outcomes);
    ghost var done: seq<Action> := [];
    for i := 0 to |files|
      invariant host.trace == old(host.trace) + done
      invariant whole.value == InOrder(files[i..], outcomes[i..]).value
      invariant whole.trace == done + InOrder(files[i..], outcomes[i..]).trace
    {
      InOrderStep(files, outcomes, i);
      var res := host.ProcessFile(files[i], args, args.dryRun);
      AppendAssoc(old(host.trace), done, outcomes[i].trace);
      if res.Err? {
        return Err(Processing(files[i], res.error));
      }
      AppendAssoc(done, outcomes[i].trace, InOrder(files[i + 1..], outcomes[i + 1..]).trace);
      done := done + outcomes[i].trace;
    }
    assert files[|files|..] == [] && outcomes[|files|..] == [];
    return Ok(());
  }
}
