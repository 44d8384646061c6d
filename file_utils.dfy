/**
 * The converter's file handling, from file_utils.rs: which traversal
 * entries are pending, where the encoded file and the backup go, and the
 * per-file pipeline (probe, log, dry-run stop or backup then encode).
 *
 * Each operation is given twice: as a function that says what the result
 * and the performed actions are (the specification), and as a method of
 * `Host` that performs the actions one by one, with the source's early
 * returns, and is proved to match the function.
 */
module FileUtils {
  import opened Wrappers
  import opened Paths
  import opened Effects
  import opened Config
  import Decimal

  /** The allow-listed extensions, compared case-sensitively. */
  const VideoExtensions: seq<string> := ["mkv", "avi", "mp4", "mov", "wmv", "flv", "m4v", "webm", "3gp"]

  /** Files already in this codec are not pending. */
  const SkipCodec: string := "hevc"

  /** The infix of every output name, `<stem>.x265.mkv`. */
  const OutputSuffix: string := "x265"

  /** `/tmp/backup`. */
  const BackupDir: Path := Path([RootDir, Normal(FromStr("tmp")), Normal(FromStr("backup"))])

  datatype Error =
    | CreateBackupDir(dir: Path)          // create_dir_all failed
    | CopyTo(dest: Path)                  // fs::copy failed
    | RunningFfmpeg                       // ffmpeg could not be launched
    | FfmpegFailed                        // ffmpeg exited unsuccessfully
    | ProcessingFile(cause: Error)        // context added by main for a single input file
    | Processing(file: Path, cause: Error) // context added by main for a scanned file

  /** A failed probe counts as the empty codec. */
  function CodecOrEmpty(probe: Result<string, ProbeError>): string {
    match probe
    case Ok(c) => c
    case Err(_) => ""
  }

  // ---------------------------------------------------------------------
  // Selection (find_pending_files)
  // ---------------------------------------------------------------------

  /** The extension exists, is valid UTF-8 and is one of the allow-listed ones. */
  predicate HasVideoExtension(p: Path) {
    match Extension(p)
    case None => false
    case Some(e) =>
      match ToStr(e)
      case None => false
      case Some(s) => s in VideoExtensions
  }

  /** A regular file with an allow-listed extension: the scan probes it. */
  predicate IsCandidate(env: Env, p: Path) {
    env.isFile(p) && HasVideoExtension(p)
  }

  /** A candidate whose (possibly failed) probe does not report the skipped codec. */
  predicate IsPending(env: Env, p: Path) {
    IsCandidate(env, p) && CodecOrEmpty(env.probe(p)) != SkipCodec
  }

  /** What one entry adds to the result: its path when it is readable and pending. */
  function Kept(env: Env, e: Result<Path, WalkError>): seq<Path> {
    match e
    case Ok(p) => if IsPending(env, p) then [p] else []
    case Err(_) => []
  }

  /** The probe one entry costs: one when it is a readable candidate. */
  function Probed(env: Env, e: Result<Path, WalkError>): seq<Action> {
    match e
    case Ok(p) => if IsCandidate(env, p) then [Probe(p)] else []
    case Err(_) => []
  }

  /** The pending files among the traversal entries, in traversal order. */
  function PendingFiles(walk: seq<Result<Path, WalkError>>, env: Env): seq<Path> {
    if walk == [] then [] else PendingFiles(walk[..|walk| - 1], env) + Kept(env, walk[|walk| - 1])
  }

  /** The probes the scan launches: one per candidate entry, in traversal order. */
  function ScanProbes(walk: seq<Result<Path, WalkError>>, env: Env): seq<Action> {
    if walk == [] then [] else ScanProbes(walk[..|walk| - 1], env) + Probed(env, walk[|walk| - 1])
  }

  /** Both scans over one more entry: the entries so far, then that entry. */
  lemma ScanStep(walk: seq<Result<Path, WalkError>>, env: Env, i: nat)
    requires i < |walk|
    ensures PendingFiles(walk[..i + 1], env) == PendingFiles(walk[..i], env) + Kept(env, walk[i])
    ensures ScanProbes(walk[..i + 1], env) == ScanProbes(walk[..i], env) + Probed(env, walk[i])
  {
    assert walk[..i + 1][..i] == walk[..i];
  }

  /** The positions of the traversal entries that are kept, in increasing order. */
  function PendingIndices(walk: seq<Result<Path, WalkError>>, env: Env): seq<nat> {
    if walk == [] then []
    else
      var n := |walk| - 1;
      PendingIndices(walk[..n], env) + if Kept(env, walk[n]) == [] then [] else [n]
  }

  /** One entry's contribution: nothing, or its own path. */
  lemma KeptShape(env: Env, e: Result<Path, WalkError>)
    ensures Kept(env, e) == [] || (e.Ok? && Kept(env, e) == [e.value])
  {
  }

  /** `p` is what an entry contributes exactly when the entry is `p` and it is pending. */
  lemma KeptMember(env: Env, e: Result<Path, WalkError>, p: Path)
    ensures p in Kept(env, e) <==> e == Ok(p) && IsPending(env, p)
  {
  }

  /** An entry is kept exactly when it is readable and pending. */
  lemma KeptOne(env: Env, e: Result<Path, WalkError>)
    ensures Kept(env, e) != [] <==> e.Ok? && IsPending(env, e.value)
  {
  }

  /** There is one position per pending file, each naming an entry of the traversal. */
  lemma {:induction false} PendingIndicesLength(walk: seq<Result<Path, WalkError>>, env: Env)
    ensures |PendingIndices(walk, env)| == |PendingFiles(walk, env)|
    ensures forall k :: 0 <= k < |PendingIndices(walk, env)| ==> PendingIndices(walk, env)[k] < |walk|
  {
    if walk != [] {
      var n := |walk| - 1;
      PendingIndicesLength(walk[..n], env);
      KeptShape(env, walk[n]);
    }
  }

  /**
   * Where each pending file sits in the traversal: the `k`-th pending file
   * is the entry at the `k`-th position, and the positions increase. So the
   * result is the traversal with entries dropped and nothing reordered.
   */
  lemma {:induction false} PendingIndicesSelect(walk: seq<Result<Path, WalkError>>, env: Env)
    ensures |PendingIndices(walk, env)| == |PendingFiles(walk, env)|
    ensures var idx := PendingIndices(walk, env);
      forall k :: 0 <= k < |idx| ==> idx[k] < |walk| && walk[idx[k]] == Ok(PendingFiles(walk, env)[k])
    ensures var idx := PendingIndices(walk, env);
      forall k, l :: 0 <= k < l < |idx| ==> idx[k] < idx[l]
  {
    PendingIndicesLength(walk, env);
    if walk != [] {
      var n := |walk| - 1;
      var w := walk[..n];
      PendingIndicesSelect(w, env);
      PendingIndicesLength(w, env);
      KeptShape(env, walk[n]);
      var prev := PendingIndices(w, env);
      var files := PendingFiles(w, env);
      assert forall k :: 0 <= k < |prev| ==> walk[prev[k]] == w[prev[k]];
      if Kept(env, walk[n]) != [] {
        var idx := PendingIndices(walk, env);
        assert idx == prev + [n];
        assert PendingFiles(walk, env) == files + [walk[n].value];
      }
    }
  }

  /** Every entry that is kept has its position in the result. */
  lemma {:induction false} KeptIndicesComplete(walk: seq<Result<Path, WalkError>>, env: Env)
    ensures forall i :: 0 <= i < |walk| && Kept(env, walk[i]) != [] ==> i in PendingIndices(walk, env)
  {
    if walk != [] {
      var n := |walk| - 1;
      var w := walk[..n];
      KeptIndicesComplete(w, env);
      var prev := PendingIndices(w, env);
      if Kept(env, walk[n]) == [] {
        assert PendingIndices(walk, env) == prev;
        forall i | 0 <= i < |walk| && Kept(env, walk[i]) != []
          ensures i in prev
        {
          assert i < n && w[i] == walk[i];
        }
      } else {
        assert PendingIndices(walk, env) == prev + [n];
        forall i | 0 <= i < n && Kept(env, walk[i]) != []
          ensures i in prev + [n]
        {
          assert w[i] == walk[i] && i in prev;
        }
      }
    }
  }

  /** Every readable pending entry has its position in the result. */
  lemma PendingIndicesComplete(walk: seq<Result<Path, WalkError>>, env: Env)
    ensures forall i :: 0 <= i < |walk| && walk[i].Ok? && IsPending(env, walk[i].value) ==> i in PendingIndices(walk, env)
  {
    KeptIndicesComplete(walk, env);
    forall i | 0 <= i < |walk| && walk[i].Ok? && IsPending(env, walk[i].value)
      ensures Kept(env, walk[i]) != []
    {
      KeptOne(env, walk[i]);
    }
  }

  /** A path is in the result exactly when a readable entry holds it and it is pending. */
  lemma {:induction false} PendingMembership(walk: seq<Result<Path, WalkError>>, env: Env, p: Path)
    ensures p in PendingFiles(walk, env) <==> Ok(p) in walk && IsPending(env, p)
  {
    if walk != [] {
      var n := |walk| - 1;
      PendingMembership(walk[..n], env, p);
      KeptMember(env, walk[n], p);
      assert walk == walk[..n] + [walk[n]];
      assert Ok(p) in walk <==> Ok(p) in walk[..n] || walk[n] == Ok(p);
    }
  }

  /** One entry's probe: there is one on `p` exactly when the entry is `p` and a candidate. */
  lemma ProbedOne(env: Env, e: Result<Path, WalkError>, p: Path)
    ensures Probe(p) in Probed(env, e) <==> e == Ok(p) && IsCandidate(env, p)
    ensures forall i :: 0 <= i < |Probed(env, e)| ==> Probed(env, e)[i].Probe?
  {
  }

  /** Every probe the scan launches is on a regular file with an allow-listed extension. */
  lemma {:induction false} ScanProbesOnlyCandidates(walk: seq<Result<Path, WalkError>>, env: Env, p: Path)
    ensures Probe(p) in ScanProbes(walk, env) <==> Ok(p) in walk && IsCandidate(env, p)
  {
    if walk != [] {
      var n := |walk| - 1;
      ScanProbesOnlyCandidates(walk[..n], env, p);
      ProbedOne(env, walk[n], p);
      assert walk == walk[..n] + [walk[n]];
      assert Ok(p) in walk <==> Ok(p) in walk[..n] || walk[n] == Ok(p);
    }
  }

  /** The scan performs nothing but probes. */
  lemma {:induction false} ScanOnlyProbes(walk: seq<Result<Path, WalkError>>, env: Env)
    ensures forall i :: 0 <= i < |ScanProbes(walk, env)| ==> ScanProbes(walk, env)[i].Probe?
  {
    if walk != [] {
      var n := |walk| - 1;
      ScanOnlyProbes(walk[..n], env);
      ProbedOne(env, walk[n], Path([]));
      var prev := ScanProbes(walk[..n], env);
      var last := Probed(env, walk[n]);
      assert forall i :: |prev| <= i < |prev + last| ==> (prev + last)[i] == last[i - |prev|];
    }
  }

  /** So the scan changes nothing and reports no file as being processed. */
  lemma ScanChangesNothing(walk: seq<Result<Path, WalkError>>, env: Env)
    ensures ChangesNothing(ScanProbes(walk, env)) && Processed(ScanProbes(walk, env)) == []
  {
    ScanOnlyProbes(walk, env);
    ProcessedNone(ScanProbes(walk, env));
  }

  /** A regular file with an allow-listed extension whose probe fails is pending. */
  lemma FailedProbeIsPending(env: Env, p: Path)
    requires env.isFile(p) && HasVideoExtension(p) && env.probe(p).Err?
    ensures IsPending(env, p)
  {
  }

  /** No extension, or one that is not valid UTF-8, is never pending, whatever the codec. */
  lemma NoUsableExtensionNeverPending(env: Env, p: Path)
    requires Extension(p).None? || ToStr(Extension(p).value).None?
    ensures !IsPending(env, p)
  {
  }

  /** A file reported as `hevc` is never pending. */
  lemma SkipCodecNeverPending(env: Env, p: Path)
    requires env.probe(p) == Ok("hevc")
    ensures !IsPending(env, p)
  {
  }

  /**
   * The file `<stem>.<ext>`, for a dot-free extension, has that stem and
   * extension; the stem may itself hold dots or start with one (only the
   * name `..` is not split).
   */
  lemma NameSplitsAtDot(stem: string, ext: string)
    requires stem != [] && (stem != "." || ext != "")
    requires forall i :: 0 <= i < |ext| ==> ext[i] != '.'
    ensures var p := Path([Normal(FromStr(stem + "." + ext))]);
      FileStem(p) == Some(FromStr(stem)) && Extension(p) == Some(FromStr(ext))
      && ToStr(FromStr(stem)) == Some(stem) && ToStr(FromStr(ext)) == Some(ext)
  {
    FromStrConcat(stem, "." + ext);
    FromStrConcat(".", ext);
    assert FromStr(".") == [Dot];
    assert FromStr(stem + "." + ext) == FromStr(stem) + [Dot] + FromStr(ext) by {
      assert stem + "." + ext == stem + ("." + ext);
    }
    FromStrNoDot(ext);
    assert FromStr(stem) != [Dot] || ext != "" by {
      if FromStr(stem) == [Dot] {
        assert |stem| == 1 && FromStr(stem)[0] == Ch(stem[0]);
        assert stem == ".";
      }
    }
    StemOfDotted(FromStr(stem), FromStr(ext));
    ToStrFromStr(stem);
    ToStrFromStr(ext);
  }

  /** The comparison is case-sensitive: `MKV` is not `mkv`. */
  lemma ExtensionCaseSensitive()
    ensures !HasVideoExtension(Path([Normal(FromStr("MOVIE.MKV"))]))
    ensures HasVideoExtension(Path([Normal(FromStr("movie.mkv"))]))
  {
    NameSplitsAtDot("MOVIE", "MKV");
    assert "MOVIE" + "." + "MKV" == "MOVIE.MKV";
    assert "MKV" !in VideoExtensions;
    NameSplitsAtDot("movie", "mkv");
    assert "movie" + "." + "mkv" == "movie.mkv";
  }

  /** A hidden file keeps its extension: `.hidden.mkv` is a candidate. */
  lemma HiddenFileExtension()
    ensures Extension(Path([Normal(FromStr(".hidden.mkv"))])) == Some(FromStr("mkv"))
    ensures HasVideoExtension(Path([Normal(FromStr(".hidden.mkv"))]))
  {
    NameSplitsAtDot(".hidden", "mkv");
    assert ".hidden" + "." + "mkv" == ".hidden.mkv";
  }

  // ---------------------------------------------------------------------
  // Output path (get_output_path)
  // ---------------------------------------------------------------------

  /** The stem as text, falling back to "out" when there is none or it is not UTF-8. */
  function OutputStem(input: Path): string {
    match FileStem(input)
    case None => "out"
    case Some(s) => ToStr(s).GetOr("out")
  }

  /** `<dir>/<stem>.<suffix>.mkv`, where `dir` falls back to `.`. */
  function GetOutputPath(input: Path, suffix: string): Path {
    Join(Parent(input).GetOr(CurrentDir), FromStr(OutputStem(input) + "." + suffix + ".mkv"))
  }

  /**
   * The output sits in the input's directory (in `.` when the input has no
   * parent) and is named `<stem>.<suffix>.mkv`, where the stem is the
   * input's own when it is valid UTF-8 and "out" otherwise.
   */
  lemma OutputPathPlacement(input: Path, suffix: string)
    ensures Parent(input).Some? ==> Parent(GetOutputPath(input, suffix)) == Parent(input)
    ensures Parent(input).None? ==> Parent(GetOutputPath(input, suffix)) == Some(CurrentDir)
    ensures FileStem(input).Some? && ToStr(FileStem(input).value).Some? ==>
      FileName(GetOutputPath(input, suffix)) == Some(FromStr(ToStr(FileStem(input).value).value + "." + suffix + ".mkv"))
    ensures FileStem(input).None? || ToStr(FileStem(input).value).None? ==>
      FileName(GetOutputPath(input, suffix)) == Some(FromStr("out." + suffix + ".mkv"))
  {
    JoinThenSplit(Parent(input).GetOr(CurrentDir), FromStr(OutputStem(input) + "." + suffix + ".mkv"));
    assert "out" + "." + suffix + ".mkv" == "out." + suffix + ".mkv";
  }

  /**
   * Read back with the same path rules, the output's extension is `mkv`
   * and its stem is `<stem>.<suffix>`.
   */
  lemma OutputPathIsMkv(input: Path, suffix: string)
    ensures Extension(GetOutputPath(input, suffix)) == Some(FromStr("mkv"))
    ensures FileStem(GetOutputPath(input, suffix)) == Some(FromStr(OutputStem(input) + "." + suffix))
  {
    var out := GetOutputPath(input, suffix);
    var b := OutputStem(input) + "." + suffix;
    JoinThenSplit(Parent(input).GetOr(CurrentDir), FromStr(b + ".mkv"));
    assert b + ".mkv" == b + "." + "mkv";
    FromStrConcat(b, ".mkv");
    FromStrConcat(".", "mkv");
    assert FromStr(".") == [Dot];
    assert FromStr(b + ".mkv") == FromStr(b) + [Dot] + FromStr("mkv");
    assert FromStr("mkv") == [Ch('m'), Ch('k'), Ch('v')];
    SplitOfDotted(FromStr(b), FromStr("mkv"));
    assert OutputStem(input) + "." + suffix + ".mkv" == b + ".mkv";
  }

  /** The output never is the input itself, so the encoder never writes over its source. */
  lemma OutputIsNotInput(input: Path, suffix: string)
    ensures GetOutputPath(input, suffix) != input
  {
    var out := GetOutputPath(input, suffix);
    OutputPathIsMkv(input, suffix);
    if out == input {
      var stem := OutputStem(input);
      var outStem := FromStr(stem + "." + suffix);
      assert FileStem(input) == Some(outStem);
      ToStrFromStr(stem + "." + suffix);
      assert false;
    }
  }

  /** `dir/movie.avi` with suffix `x265` gives `dir/movie.x265.mkv`. */
  lemma OutputPathExample()
    ensures GetOutputPath(Path([Normal(FromStr("dir")), Normal(FromStr("movie.avi"))]), "x265")
         == Path([Normal(FromStr("dir")), Normal(FromStr("movie.x265.mkv"))])
  {
    NameSplitsAtDot("movie", "avi");
    assert "movie" + "." + "avi" == "movie.avi";
    var input := Path([Normal(FromStr("dir")), Normal(FromStr("movie.avi"))]);
    assert FileStem(input) == Some(FromStr("movie"));
    assert OutputStem(input) == "movie";
    assert input.components[..1] == [Normal(FromStr("dir"))];
    assert "movie" + "." + "x265" + ".mkv" == "movie.x265.mkv";
  }

  // ---------------------------------------------------------------------
  // Backup (backup_file)
  // ---------------------------------------------------------------------

  /** The backup keeps the input's file name, inside the backup directory. */
  function BackupDest(input: Path, backupDir: Path): Path
    requires FileName(input).Some?
  {
    Join(backupDir, FileName(input).value)
  }

  /**
   * Two inputs share a backup destination exactly when they have the same
   * file name: inputs from different directories with equal names are
   * backed up to the same place.
   */
  lemma BackupDestSameName(a: Path, b: Path, backupDir: Path)
    requires FileName(a).Some? && FileName(b).Some?
    ensures BackupDest(a, backupDir) == BackupDest(b, backupDir) <==> FileName(a) == FileName(b)
  {
    JoinThenSplit(backupDir, FileName(a).value);
    JoinThenSplit(backupDir, FileName(b).value);
  }

  /** Create the directory, then copy; either failing is an error. */
  function BackupSpec(input: Path, backupDir: Path, env: Env): Traced<Result<Path, Error>>
    requires FileName(input).Some?
  {
    if !env.createDirAll(backupDir) then
      Traced(Err(CreateBackupDir(backupDir)), [CreateDirAll(backupDir)])
    else
      var dest := BackupDest(input, backupDir);
      if !env.copy(input, dest) then
        Traced(Err(CopyTo(dest)), [CreateDirAll(backupDir), Copy(input, dest)])
      else
        Traced(Ok(dest), [CreateDirAll(backupDir), Copy(input, dest), Info(BackupCreatedMsg(input, dest))])
  }

  /**
   * The destination is `<backupDir>/<file name>`; the directory is created
   * before anything is copied and nothing is copied when that fails; the
   * result is the destination exactly when both steps succeed, and each
   * failure is reported as the step it happened in.
   */
  lemma BackupProperties(input: Path, backupDir: Path, env: Env)
    requires FileName(input).Some?
    ensures FileName(BackupDest(input, backupDir)) == FileName(input)
    ensures Parent(BackupDest(input, backupDir)) == Some(backupDir)
    ensures BackupSpec(input, backupDir, env).trace[0] == CreateDirAll(backupDir)
    ensures Copy(input, BackupDest(input, backupDir)) in BackupSpec(input, backupDir, env).trace <==> env.createDirAll(backupDir)
    ensures BackupSpec(input, backupDir, env).value.Ok? <==> env.createDirAll(backupDir) && env.copy(input, BackupDest(input, backupDir))
    ensures BackupSpec(input, backupDir, env).value.Ok? ==> BackupSpec(input, backupDir, env).value.value == BackupDest(input, backupDir)
    ensures !env.createDirAll(backupDir) ==> BackupSpec(input, backupDir, env).value == Err(CreateBackupDir(backupDir))
    ensures env.createDirAll(backupDir) && !env.copy(input, BackupDest(input, backupDir)) ==>
      BackupSpec(input, backupDir, env).value == Err(CopyTo(BackupDest(input, backupDir)))
    ensures ChangesNothing(BackupSpec(input, backupDir, env).trace) == false
    ensures Processed(BackupSpec(input, backupDir, env).trace) == []
  {
    JoinThenSplit(backupDir, FileName(input).value);
    ProcessedNone(BackupSpec(input, backupDir, env).trace);
    assert !ChangesNothing(BackupSpec(input, backupDir, env).trace) by {
      assert Changes(BackupSpec(input, backupDir, env).trace[0]);
    }
  }

  // ---------------------------------------------------------------------
  // Per-file pipeline (process_file)
  // ---------------------------------------------------------------------

  /** The `ffmpeg` command line that re-encodes `input` into `out`. */
  function FfmpegArgv(input: Path, preset: string, crf: Decimal.u8, out: Path): seq<Arg> {
    [Lit("-y"), Lit("-i"), PathArg(input), Lit("-c:v"), Lit("libx265"),
     Lit("-preset"), Lit(preset), Lit("-crf"), Lit(Decimal.Render(crf as nat)),
     Lit("-c:a"), Lit("copy"), PathArg(out)]
  }

  /**
   * The command line carries its inputs recoverably: the input and the
   * output at fixed places, the preset verbatim and the CRF as decimal
   * digits that read back as the CRF.
   */
  lemma FfmpegArgvCarriesSettings(input: Path, preset: string, crf: Decimal.u8, out: Path)
    ensures |FfmpegArgv(input, preset, crf, out)| == 12
    ensures FfmpegArgv(input, preset, crf, out)[2] == PathArg(input)
    ensures FfmpegArgv(input, preset, crf, out)[6] == Lit(preset)
    ensures FfmpegArgv(input, preset, crf, out)[11] == PathArg(out)
    ensures var t := FfmpegArgv(input, preset, crf, out)[8].text;
      1 <= |t| <= 3 && (forall i :: 0 <= i < |t| ==> Decimal.IsDigit(t[i])) && Decimal.Parse(t) == crf as nat
  {
    Decimal.ParseRender(crf as nat);
    Decimal.RenderU8Length(crf);
  }

  /** Back up `path`, then have `ffmpeg` re-encode it into `out`; the first failure ends the call. */
  function EncodeSpec(path: Path, out: Path, args: Args, env: Env): Traced<Result<(), Error>>
    requires FileName(path).Some?
  {
    var backup := BackupSpec(path, BackupDir, env);
    if backup.value.Err? then
      Traced(Err(backup.value.error), backup.trace)
    else
      var argv := FfmpegArgv(path, args.preset, args.crf, out);
      var status := env.ffmpeg(argv);
      var r := if status.Err? then Err(RunningFfmpeg)
               else if !Success(status.value) then Err(FfmpegFailed)
               else Ok(());
      Traced(r, backup.trace + [RunFfmpeg(argv)])
  }

  /** Probe, log, then either stop (dry run) or back up and encode into the output path. */
  function ProcessSpec(path: Path, args: Args, dryRun: bool, env: Env): Traced<Result<(), Error>>
    requires dryRun || FileName(path).Some?
  {
    var head := [Probe(path), Info(ProcessingMsg(path, CodecOrEmpty(env.probe(path))))];
    if dryRun then
      Traced(Ok(()), head + [Info(DryRunMsg(path))])
    else
      var encode := EncodeSpec(path, GetOutputPath(path, OutputSuffix), args, env);
      Traced(encode.value, head + encode.trace)
  }

  predicate RunsEncoder(t: seq<Action>) {
    exists i :: 0 <= i < |t| && t[i].RunFfmpeg?
  }

  /** Backing up and encoding reports no file as being processed and walks nothing. */
  lemma EncodeReportsNothing(path: Path, out: Path, args: Args, env: Env)
    requires FileName(path).Some?
    ensures Processed(EncodeSpec(path, out, args, env).trace) == []
    ensures !Walks(EncodeSpec(path, out, args, env).trace)
  {
    var backup := BackupSpec(path, BackupDir, env);
    BackupProperties(path, BackupDir, env);
    if backup.value.Ok? {
      var argv := FfmpegArgv(path, args.preset, args.crf, out);
      ProcessedConcat(backup.trace, [RunFfmpeg(argv)]);
    }
  }

  /** Every call reports its own file, and only that one, as being processed. */
  lemma ProcessReportsItsFile(path: Path, args: Args, dryRun: bool, env: Env)
    requires dryRun || FileName(path).Some?
    ensures Processed(ProcessSpec(path, args, dryRun, env).trace) == [path]
    ensures !Walks(ProcessSpec(path, args, dryRun, env).trace)
  {
    var head := [Probe(path), Info(ProcessingMsg(path, CodecOrEmpty(env.probe(path))))];
    assert Processed(head) == [path] by {
      assert head[1..] == [head[1]];
      assert Processed([head[1]]) == [path] + Processed([]);
    }
    if dryRun {
      ProcessedConcat(head, [Info(DryRunMsg(path))]);
    } else {
      var out := GetOutputPath(path, OutputSuffix);
      EncodeReportsNothing(path, out, args, env);
      ProcessedConcat(head, EncodeSpec(path, out, args, env).trace);
      WalksConcat(head, EncodeSpec(path, out, args, env).trace);
    }
  }

  /** A dry run succeeds and neither backs up nor encodes. */
  lemma DryRunChangesNothing(path: Path, args: Args, env: Env)
    ensures ProcessSpec(path, args, true, env).value.Ok?
    ensures ChangesNothing(ProcessSpec(path, args, true, env).trace)
  {
  }

  /**
   * The encoder runs exactly when the backup directory was created and the
   * copy succeeded; it is then the last action, with the command line built
   * from the settings and `out`, after the copy into the backup directory.
   */
  lemma EncodeAfterBackup(path: Path, out: Path, args: Args, env: Env)
    requires FileName(path).Some?
    ensures var t := EncodeSpec(path, out, args, env).trace;
      RunsEncoder(t) <==> env.createDirAll(BackupDir) && env.copy(path, BackupDest(path, BackupDir))
    ensures var t := EncodeSpec(path, out, args, env).trace;
      |t| > 0 &&
      (RunsEncoder(t) ==>
        && t[|t| - 1] == RunFfmpeg(FfmpegArgv(path, args.preset, args.crf, out))
        && Copy(path, BackupDest(path, BackupDir)) in t[..|t| - 1]
        && (forall i :: 0 <= i < |t| - 1 ==> !t[i].RunFfmpeg?))
  {
    var backup := BackupSpec(path, BackupDir, env);
    BackupProperties(path, BackupDir, env);
    var t := EncodeSpec(path, out, args, env).trace;
    if backup.value.Ok? {
      assert t[..|t| - 1] == backup.trace;
      assert t[|t| - 1].RunFfmpeg?;
    } else {
      assert t == backup.trace;
    }
  }

  /**
   * Without dry run: the encoder runs exactly when the backup directory was
   * created and the copy succeeded; it is then the last action, with the
   * command line built from the settings and the output path, after the
   * copy of the input into the backup directory.
   */
  lemma EncodeOnlyAfterBackup(path: Path, args: Args, env: Env)
    requires FileName(path).Some?
    ensures var t := ProcessSpec(path, args, false, env).trace;
      RunsEncoder(t) <==> env.createDirAll(BackupDir) && env.copy(path, BackupDest(path, BackupDir))
    ensures var t := ProcessSpec(path, args, false, env).trace;
      RunsEncoder(t) ==>
        && t[|t| - 1] == RunFfmpeg(
             [Lit("-y"), Lit("-i"), PathArg(path), Lit("-c:v"), Lit("libx265"),
              Lit("-preset"), Lit(args.preset), Lit("-crf"), Lit(Decimal.Render(args.crf as nat)),
              Lit("-c:a"), Lit("copy"), PathArg(GetOutputPath(path, "x265"))])
        && Copy(path, BackupDest(path, BackupDir)) in t[..|t| - 1]
        && (forall i :: 0 <= i < |t| - 1 ==> !t[i].RunFfmpeg?)
  {
    var head := [Probe(path), Info(ProcessingMsg(path, CodecOrEmpty(env.probe(path))))];
    var out := GetOutputPath(path, OutputSuffix);
    var e := EncodeSpec(path, out, args, env).trace;
    EncodeAfterBackup(path, out, args, env);
    var t := ProcessSpec(path, args, false, env).trace;
    assert t == head + e;
    assert t[..|t| - 1] == head + e[..|e| - 1];
    assert t[|t| - 1] == e[|e| - 1];
    assert RunsEncoder(t) <==> RunsEncoder(e) by {
      if RunsEncoder(t) {
        var i :| 0 <= i < |t| && t[i].RunFfmpeg?;
        assert i >= 2 && t[i] == e[i - 2];
      }
      if RunsEncoder(e) {
        var i :| 0 <= i < |e| && e[i].RunFfmpeg?;
        assert t[i + 2] == e[i];
      }
    }
    if RunsEncoder(e) {
      assert forall i :: 2 <= i < |t| - 1 ==> t[i] == e[i - 2];
    }
  }

  /**
   * Backing up and encoding succeeds exactly when the backup succeeded,
   * `ffmpeg` could be launched and it exited successfully; each failure is
   * reported as the step it happened in.
   */
  lemma EncodeOutcome(path: Path, out: Path, args: Args, env: Env)
    requires FileName(path).Some?
    ensures var argv := FfmpegArgv(path, args.preset, args.crf, out);
      var dest := BackupDest(path, BackupDir);
      var r := EncodeSpec(path, out, args, env).value;
      && (r.Ok? <==> env.createDirAll(BackupDir) && env.copy(path, dest)
                     && env.ffmpeg(argv).Ok? && Success(env.ffmpeg(argv).value))
      && (!env.createDirAll(BackupDir) ==> r == Err(CreateBackupDir(BackupDir)))
      && (env.createDirAll(BackupDir) && !env.copy(path, dest) ==> r == Err(CopyTo(dest)))
      && (env.createDirAll(BackupDir) && env.copy(path, dest) && env.ffmpeg(argv).Err? ==> r == Err(RunningFfmpeg))
      && (env.createDirAll(BackupDir) && env.copy(path, dest) && env.ffmpeg(argv).Ok? && !Success(env.ffmpeg(argv).value)
          ==> r == Err(FfmpegFailed))
  {
    BackupProperties(path, BackupDir, env);
  }

  /**
   * Without dry run the call has the outcome of backing up and encoding
   * into the output path: success exactly when every step succeeded, and
   * each failure reported as the step it happened in.
   */
  lemma ProcessOutcome(path: Path, args: Args, env: Env)
    requires FileName(path).Some?
    ensures var argv := FfmpegArgv(path, args.preset, args.crf, GetOutputPath(path, OutputSuffix));
      var dest := BackupDest(path, BackupDir);
      var r := ProcessSpec(path, args, false, env).value;
      && (r.Ok? <==> env.createDirAll(BackupDir) && env.copy(path, dest)
                     && env.ffmpeg(argv).Ok? && Success(env.ffmpeg(argv).value))
      && (!env.createDirAll(BackupDir) ==> r == Err(CreateBackupDir(BackupDir)))
      && (env.createDirAll(BackupDir) && !env.copy(path, dest) ==> r == Err(CopyTo(dest)))
      && (env.createDirAll(BackupDir) && env.copy(path, dest) && env.ffmpeg(argv).Err? ==> r == Err(RunningFfmpeg))
      && (env.createDirAll(BackupDir) && env.copy(path, dest) && env.ffmpeg(argv).Ok? && !Success(env.ffmpeg(argv).value)
          ==> r == Err(FfmpegFailed))
  {
    EncodeOutcome(path, GetOutputPath(path, OutputSuffix), args, env);
  }

  /**
   * `dir/movie.avi`, not a dry run, everything succeeding: the original is
   * copied to `/tmp/backup/movie.avi` and `ffmpeg` writes `dir/movie.x265.mkv`.
   */
  lemma ProcessExample(args: Args, env: Env)
    requires env.createDirAll(BackupDir)
    requires env.copy(Path([Normal(FromStr("dir")), Normal(FromStr("movie.avi"))]),
                      Path([RootDir, Normal(FromStr("tmp")), Normal(FromStr("backup")), Normal(FromStr("movie.avi"))]))
    ensures var input := Path([Normal(FromStr("dir")), Normal(FromStr("movie.avi"))]);
      var t := ProcessSpec(input, args, false, env).trace;
      && Copy(input, Path([RootDir, Normal(FromStr("tmp")), Normal(FromStr("backup")), Normal(FromStr("movie.avi"))])) in t
      && t[|t| - 1].RunFfmpeg?
      && t[|t| - 1].argv[11] == PathArg(Path([Normal(FromStr("dir")), Normal(FromStr("movie.x265.mkv"))]))
  {
    var input := Path([Normal(FromStr("dir")), Normal(FromStr("movie.avi"))]);
    var dest := BackupDest(input, BackupDir);
    assert dest == Path([RootDir, Normal(FromStr("tmp")), Normal(FromStr("backup")), Normal(FromStr("movie.avi"))]);
    var backup := BackupSpec(input, BackupDir, env);
    assert backup.trace == [CreateDirAll(BackupDir), Copy(input, dest), Info(BackupCreatedMsg(input, dest))];
    OutputPathExample();
    var argv := FfmpegArgv(input, args.preset, args.crf, GetOutputPath(input, OutputSuffix));
    var head := [Probe(input), Info(ProcessingMsg(input, CodecOrEmpty(env.probe(input))))];
    var t := ProcessSpec(input, args, false, env).trace;
    assert t == head + backup.trace + [RunFfmpeg(argv)];
    assert t[3] == Copy(input, dest);
  }

  // ---------------------------------------------------------------------
  // The performing side
  // ---------------------------------------------------------------------

  /**
   * The world the converter acts on: the oracle that answers each call and
   * the trace of the actions performed so far.
   */
  class Host {
    const env: Env
    var trace: seq<Action>

    constructor (env: Env)
      ensures this.env == env && trace == []
    {
      this.env := env;
      trace := [];
    }

    /** `WalkDir::new(root).follow_links(true)`: the traversal's entries. */
    method WalkDir(root: Path) returns (entries: seq<Result<Path, WalkError>>)
      modifies this
      ensures entries == env.walk(root)
      ensures trace == old(trace) + [Walk(root)]
    {
      entries := env.walk(root);
      trace := trace + [Walk(root)];
    }

    /** `Path::is_file`: a query, not recorded. */
    method IsFile(p: Path) returns (b: bool)
      ensures b == env.isFile(p)
    {
      b := env.isFile(p);
    }

    /** `detect_codec`: runs `ffprobe` on the file. */
    method DetectCodec(p: Path) returns (r: Result<string, ProbeError>)
      modifies this
      ensures r == env.probe(p)
      ensures trace == old(trace) + [Probe(p)]
    {
      r := env.probe(p);
      trace := trace + [Probe(p)];
    }

    method CreateDirAll(dir: Path) returns (ok: bool)
      modifies this
      ensures ok == env.createDirAll(dir)
      ensures trace == old(trace) + [Action.CreateDirAll(dir)]
    {
      ok := env.createDirAll(dir);
      trace := trace + [Action.CreateDirAll(dir)];
    }

    method Copy(src: Path, dest: Path) returns (ok: bool)
      modifies this
      ensures ok == env.copy(src, dest)
      ensures trace == old(trace) + [Action.Copy(src, dest)]
    {
      ok := env.copy(src, dest);
      trace := trace + [Action.Copy(src, dest)];
    }

    /** `Command::new("ffmpeg").args(argv).status()`. */
    method RunFfmpeg(argv: seq<Arg>) returns (status: Result<ExitStatus, LaunchError>)
      modifies this
      ensures status == env.ffmpeg(argv)
      ensures trace == old(trace) + [Action.RunFfmpeg(argv)]
    {
      status := env.ffmpeg(argv);
      trace := trace + [Action.RunFfmpeg(argv)];
    }

    method Info(line: LogLine)
      modifies this
      ensures trace == old(trace) + [Action.Info(line)]
    {
      trace := trace + [Action.Info(line)];
    }

    /**
     * `find_pending_files`: walks the tree, keeps the pending entries in
     * order, skips unreadable ones, and always succeeds.
     */
    method FindPendingFiles(dir: Path) returns (r: Result<seq<Path>, Error>)
      modifies this
      ensures r == Ok(PendingFiles(env.walk(dir), env))
      ensures trace == old(trace) + [Walk(dir)] + ScanProbes(env.walk(dir), env)
    {
      var res: seq<Path> := [];
      var entries := WalkDir(dir);
      ghost var start := trace;
      var i := 0;
      while i < |entries|
        invariant 0 <= i <= |entries|
        invariant res == PendingFiles(entries[..i], env)
        invariant trace == start + ScanProbes(entries[..i], env)
      {
        ScanStep(entries, env, i);
        match entries[i] {
          case Err(_) =>
          case Ok(p) =>
            var file := IsFile(p);
            if file {
              var ext := Extension(p);
              if ext.Some? && ToStr(ext.value).Some? {
                if ToStr(ext.value).value in VideoExtensions {
                  var probe := DetectCodec(p);
                  AppendAssoc(start, ScanProbes(entries[..i], env), [Probe(p)]);
                  var codec := CodecOrEmpty(probe);
                  if codec != SkipCodec {
                    res := res + [p];
                  }
                }
              }
            }
        }
        i := i + 1;
      }
      assert entries[..|entries|] == entries;
      r := Ok(res);
    }

    /** `backup_file`: create the directory, then copy the input into it. */
    method BackupFile(input: Path, backupDir: Path) returns (r: Result<Path, Error>)
      requires FileName(input).Some?
      modifies this
      ensures r == BackupSpec(input, backupDir, env).value
      ensures trace == old(trace) + BackupSpec(input, backupDir, env).trace
    {
      var made := CreateDirAll(backupDir);
      if !made {
        return Err(CreateBackupDir(backupDir));
      }
      var dest := Join(backupDir, FileName(input).value);
      var copied := Copy(input, dest);
      if !copied {
        return Err(CopyTo(dest));
      }
      Info(BackupCreatedMsg(input, dest));
      return Ok(dest);
    }

    /** `process_file`. */
    method ProcessFile(path: Path, args: Args, dryRun: bool) returns (r: Result<(), Error>)
      requires dryRun || FileName(path).Some?
      modifies this
      ensures r == ProcessSpec(path, args, dryRun, env).value
      ensures trace == old(trace) + ProcessSpec(path, args, dryRun, env).trace
    {
      var probe := DetectCodec(path);
      var codec := CodecOrEmpty(probe);
      Info(ProcessingMsg(path, codec));
      if dryRun {
        Info(DryRunMsg(path));
        return Ok(());
      }
      var out := GetOutputPath(path, OutputSuffix);
      var backed := BackupFile(path, BackupDir);
      if backed.Err? {
        return Err(backed.error);
      }
      var argv := FfmpegArgv(path, args.preset, args.crf, out);
      var status := RunFfmpeg(argv);
      if status.Err? {
        return Err(RunningFfmpeg);
      }
      if !Success(status.value) {
        return Err(FfmpegFailed);
      }
      return Ok(());
    }
  }
}
