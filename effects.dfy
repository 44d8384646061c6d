/**
 * What the converter does to the outside world, and what the outside world
 * answers.
 *
 * Every filesystem or subprocess call except the `is_file` queries becomes
 * an `Action` appended to a trace; its outcome is read from an `Env`, a
 * fixed oracle that stands for the directory tree, `is_file`, `ffprobe`, `create_dir_all`, `fs::copy`
 * and `ffmpeg`. Log lines are actions too, so the trace also records what
 * the program reports and in which order.
 */
module Effects {
  import opened Wrappers
  import opened Paths

  /** One element of an `ffmpeg` command line: a literal or a path. */
  datatype Arg = Lit(text: string) | PathArg(path: Path)

  /** How a child process ended. */
  datatype ExitStatus = Exited(code: int) | Signalled(signal: int)

  /** `ExitStatus::success`: exited with code zero. */
  predicate Success(s: ExitStatus) {
    s.Exited? && s.code == 0
  }

  /** A directory entry the traversal could not read. */
  datatype WalkError = WalkError

  /** `ffprobe` could not be launched or exited unsuccessfully. */
  datatype ProbeError = ProbeError

  /** A child process could not be launched. */
  datatype LaunchError = LaunchError

  /** The `info` lines the converter prints. */
  datatype LogLine =
    | ProcessingMsg(path: Path, codec: string)
    | DryRunMsg(path: Path)
    | BackupCreatedMsg(src: Path, dest: Path)

  datatype Action =
    | Walk(root: Path)              // the recursive traversal starts
    | Probe(file: Path)             // `ffprobe` runs on a file
    | CreateDirAll(dir: Path)
    | Copy(src: Path, dest: Path)
    | RunFfmpeg(argv: seq<Arg>)
    | Info(line: LogLine)

  /** The oracle: what each call returns. */
  datatype Env = Env(
    walk: Path -> seq<Result<Path, WalkError>>,
    isFile: Path -> bool,
    probe: Path -> Result<string, ProbeError>,
    createDirAll: Path -> bool,
    copy: (Path, Path) -> bool,
    ffmpeg: seq<Arg> -> Result<ExitStatus, LaunchError>)

  /**
   * A regular file always has a file name (a path that ends in a root,
   * `.` or `..` names a directory).
   */
  ghost predicate Coherent(env: Env) {
    forall p :: env.isFile(p) ==> FileName(p).Some?
  }

  /** A result together with the actions performed to compute it. */
  datatype Traced<T> = Traced(value: T, trace: seq<Action>)

  /** The actions that change the filesystem or start the encoder. */
  predicate Changes(a: Action) {
    a.CreateDirAll? || a.Copy? || a.RunFfmpeg?
  }

  predicate ChangesNothing(t: seq<Action>) {
    forall i :: 0 <= i < |t| ==> !Changes(t[i])
  }

  predicate Walks(t: seq<Action>) {
    exists i :: 0 <= i < |t| && t[i].Walk?
  }

  /**
   * The files whose processing started, in order: each call of
   * `process_file` reports the file it works on before it backs up or
   * encodes anything.
   */
  function Processed(t: seq<Action>): seq<Path> {
    if t == [] then []
    else
      (match t[0]
       case Info(ProcessingMsg(p, _)) => [p]
       case _ => [])
      + Processed(t[1..])
  }

  lemma {:induction false} ProcessedConcat(a: seq<Action>, b: seq<Action>)
    ensures Processed(a + b) == Processed(a) + Processed(b)
  {
    if a == [] {
      assert a + b == b;
    } else {
      assert (a + b)[0] == a[0];
      assert (a + b)[1..] == a[1..] + b;
      ProcessedConcat(a[1..], b);
    }
  }

  predicate ReportsProcessing(a: Action) {
    a.Info? && a.line.ProcessingMsg?
  }

  /** A trace with no "processing" line reports no file. */
  lemma {:induction false} ProcessedNone(t: seq<Action>)
    requires forall i :: 0 <= i < |t| ==> !ReportsProcessing(t[i])
    ensures Processed(t) == []
  {
    if t != [] {
      ProcessedNone(t[1..]);
    }
  }

  lemma ChangesNothingConcat(a: seq<Action>, b: seq<Action>)
    ensures ChangesNothing(a + b) <==> ChangesNothing(a) && ChangesNothing(b)
  {
    if ChangesNothing(a) && ChangesNothing(b) {
      forall i | 0 <= i < |a + b|
        ensures !Changes((a + b)[i])
      {
        if i >= |a| {
          assert (a + b)[i] == b[i - |a|];
        }
      }
    }
    if ChangesNothing(a + b) {
      forall i | 0 <= i < |a|
        ensures !Changes(a[i])
      {
        assert (a + b)[i] == a[i];
      }
      forall i | 0 <= i < |b|
        ensures !Changes(b[i])
      {
        assert (a + b)[|a| + i] == b[i];
      }
    }
  }

  lemma AppendAssoc(a: seq<Action>, b: seq<Action>, c: seq<Action>)
    ensures (a + b) + c == a + (b + c)
  {
  }

  lemma WalksConcat(a: seq<Action>, b: seq<Action>)
    ensures Walks(a + b) <==> Walks(a) || Walks(b)
  {
    if Walks(b) {
      var i :| 0 <= i < |b| && b[i].Walk?;
      assert (a + b)[|a| + i] == b[i];
    }
    if Walks(a) {
      var i :| 0 <= i < |a| && a[i].Walk?;
      assert (a + b)[i] == a[i];
    }
    if Walks(a + b) {
      var i :| 0 <= i < |a + b| && (a + b)[i].Walk?;
      if i >= |a| {
        assert (a + b)[i] == b[i - |a|];
      }
    }
  }
}
