# x265 converter: selection, paths and the per-file pipeline

This project models the decision layer of a small Rust command-line tool. The
tool walks a directory tree for video files and asks `ffprobe` for each
file's codec. It backs up every file that is not already `hevc` to
`/tmp/backup` and then has `ffmpeg` re-encode it with `libx265` into
`<stem>.x265.mkv` next to the original. A single file given on the command
line is processed directly. A dry run only logs.

The filesystem and the two subprocesses are oracles. An `Env` value answers
every call: the traversal entries, `is_file`, the probe result,
`create_dir_all`, `fs::copy` and the `ffmpeg` exit status. Every call
except the `is_file` queries, and every `info` line, is recorded as an
`Action` in a trace. The `is_file` answers are read from the oracle without
leaving a trace entry. Each operation
therefore appears twice:

- as a function that gives its result and the actions it performs
  (`PendingFiles` with `ScanProbes`, `BackupSpec`, `ProcessSpec`, `RunSpec`);
- as a method of the class `FileUtils.Host` (or of `Driver`) that performs
  the same steps, one effect at a time. It keeps the source's loops and
  early returns, and is proved to produce exactly that result and trace.

The properties are lemmas about the functions.

Modules:

- `Wrappers`: `Option` and `Result`.
- `Paths`: Rust's `Path` as a sequence of components. It covers OS strings
  that may hold non-UTF-8 bytes, and `file_name`, `parent`, `join`,
  `file_stem` and `extension`, including the special cases of
  `rsplit_file_at_dot`.
- `Decimal`: `u8::to_string`, with a parser that reads it back.
- `Effects`: actions, the oracle and traces.
- `Config`: `Args` and its declared defaults.
- `FileUtils`: `find_pending_files`, `get_output_path`, `backup_file` and
  `process_file`.
- `Driver`: `main`.

`process_file` never checks the codec it detects: it only logs it. The
`hevc` check happens only in `find_pending_files`. So a file named directly
on the command line is backed up and encoded whatever its codec or
extension. The model follows the code. `EncodeOnlyAfterBackup` states that
in a non-dry run the encoder runs exactly when the backup succeeds, with no
condition on the probe.

## Model

| member | source | states |
|---|---|---|
| Paths.ToStr | rust_src/src/file_utils.rs:18 | definition of `OsStr::to_str`: the text, when every unit is a character; its round trip is `ToStrFromStr` and `FromStrToStr` |
| Paths.FromStr | rust_src/src/file_utils.rs:34 | definition of turning text into an OS string; its round trip is `ToStrFromStr` and `FromStrToStr` |
| Paths.FileName | rust_src/src/file_utils.rs:39 | definition of `Path::file_name`: the last component when it is a normal name; `JoinThenSplit` and `BackupProperties` are about it |
| Paths.Parent | rust_src/src/file_utils.rs:33 | definition of `Path::parent`: the path without its last component, none for a root or an empty path; `JoinThenSplit` and `OutputPathPlacement` are about it |
| Paths.Join | rust_src/src/file_utils.rs:34 | definition of `Path::join` with one file name; `JoinThenSplit` states that it is undone by `FileName` and `Parent` |
| Paths.SplitAtLastDot | rust_src/src/file_utils.rs:18 | definition of the standard library's `rsplit_file_at_dot`; `StemAndExtension`, `NoExtensionWithoutInnerDot` and `SplitOfDotted` are about it |
| Paths.FileStem | rust_src/src/file_utils.rs:32 | definition of `Path::file_stem`; `StemAndExtension` and `StemOfDotted` are about it |
| Paths.Extension | rust_src/src/file_utils.rs:18 | definition of `Path::extension`; `StemAndExtension` and `StemOfDotted` are about it |
| Paths.LastDot | rust_src/src/file_utils.rs:18 | the index found holds a dot and no dot follows it; with no index there is no dot at all |
| Paths.StemAndExtension | rust_src/src/file_utils.rs:18 | with an extension, the file name is `<stem>.<extension>`, with a non-empty stem and a dot-free extension; without one, the stem is the whole name; no file name means neither |
| Paths.NoExtensionWithoutInnerDot | rust_src/src/file_utils.rs:32 | a name whose only dot, if any, is its first character (`.bashrc`) has no extension, and its stem is the whole name |
| Paths.SplitOfDotted | rust_src/src/file_utils.rs:32 | `b.e`, with `b` non-empty and `e` dot-free, splits into `b` and `e` (the name `..` excepted) |
| Paths.StemOfDotted | rust_src/src/file_utils.rs:32 | a file named `b.e` has stem `b` and extension `e` |
| Paths.ToStrFromStr | rust_src/src/file_utils.rs:18 | text converted to an OS string converts back unchanged (`to_str` succeeds on it) |
| Paths.FromStrToStr | rust_src/src/file_utils.rs:18 | an OS string that `to_str` accepts is the conversion of the text it yields |
| Paths.JoinThenSplit | rust_src/src/file_utils.rs:34 | `dir.join(name)` has file name `name` and parent `dir` |
| Decimal.Render | rust_src/src/file_utils.rs:59 | the text of a number is non-empty, all digits, with no leading zero |
| Decimal.ParseRender | rust_src/src/file_utils.rs:59 | reading the rendered CRF back gives the CRF |
| Decimal.RenderInjective | rust_src/src/file_utils.rs:59 | distinct CRF values give distinct arguments |
| Decimal.RenderLength | rust_src/src/file_utils.rs:59 | numbers below 10^k take at most k digits |
| Decimal.RenderU8Length | rust_src/src/file_utils.rs:59 | a `u8` takes one to three digits |
| Config.Resolve | rust_src/src/main.rs:24-34 | definition of the command line's declared defaults; `ResolveDefaults` states them |
| Config.ResolveDefaults | rust_src/src/main.rs:25-34 | options left out become preset "medium", CRF 22 and no dry run; options given are kept |
| FileUtils.CodecOrEmpty | rust_src/src/file_utils.rs:20 | definition of the codec text, "" when the probe fails; `FailedProbeIsPending` is about it |
| FileUtils.HasVideoExtension | rust_src/src/file_utils.rs:14-19 | definition of the extension test: a UTF-8 extension in the nine-name list; `NoUsableExtensionNeverPending`, `ExtensionCaseSensitive` and `HiddenFileExtension` are about it |
| FileUtils.IsCandidate | rust_src/src/file_utils.rs:17-19 | definition of the files that get probed: regular files passing the extension test; `ProbedOne` and `ScanProbesOnlyCandidates` are about it |
| FileUtils.IsPending | rust_src/src/file_utils.rs:17-22 | definition of the files that are kept: candidates whose codec is not `hevc`; `PendingMembership` and the lemmas below are about it |
| FileUtils.Kept | rust_src/src/file_utils.rs:16-23 | definition of what one traversal entry adds to the result; `KeptShape`, `KeptMember` and `KeptOne` are about it |
| FileUtils.Probed | rust_src/src/file_utils.rs:16-20 | definition of the probes one traversal entry causes; `ProbedOne` is about it |
| FileUtils.PendingFiles | rust_src/src/file_utils.rs:12-29 | definition of `find_pending_files`'s result over a traversal; `PendingMembership` and the `PendingIndices` lemmas are about it, and `Host.FindPendingFiles` is proved to return it |
| FileUtils.ScanProbes | rust_src/src/file_utils.rs:15-27 | definition of the probes the scan performs, in order; `ScanProbesOnlyCandidates`, `ScanOnlyProbes` and `ScanChangesNothing` are about it |
| FileUtils.KeptMember | rust_src/src/file_utils.rs:16-23 | one traversal entry contributes `p` exactly when it is `Ok(p)` and `p` is pending |
| FileUtils.KeptOne | rust_src/src/file_utils.rs:16-23 | an entry contributes something exactly when it is readable and pending |
| FileUtils.ProbedOne | rust_src/src/file_utils.rs:16-20 | one entry is probed exactly when it is a readable regular file with an allow-listed extension; it causes probes and nothing else |
| FileUtils.PendingMembership | rust_src/src/file_utils.rs:12-29 | a path is in the result exactly when some readable entry is that path and it is a regular file with an allow-listed extension whose codec is not `hevc` |
| FileUtils.PendingIndicesLength | rust_src/src/file_utils.rs:15-28 | there is one traversal position per result element, each within the traversal |
| FileUtils.PendingIndicesSelect | rust_src/src/file_utils.rs:15-28 | the k-th result is the entry at the k-th position, and the positions increase; the result is a subsequence of the traversal, in traversal order |
| FileUtils.PendingIndicesComplete | rust_src/src/file_utils.rs:15-28 | every readable pending entry's position is among them, so nothing pending is dropped |
| FileUtils.ScanProbesOnlyCandidates | rust_src/src/file_utils.rs:17-20 | the scan probes `p` exactly when a readable entry is `p` and it is a regular file with an allow-listed extension |
| FileUtils.ScanOnlyProbes | rust_src/src/file_utils.rs:15-28 | the scan's only actions are probes |
| FileUtils.ScanChangesNothing | rust_src/src/file_utils.rs:12-29 | the scan creates, copies and encodes nothing, and starts processing no file |
| FileUtils.FailedProbeIsPending | rust_src/src/file_utils.rs:20-22 | an allow-listed regular file whose probe fails counts as codec "" and is kept |
| FileUtils.NoUsableExtensionNeverPending | rust_src/src/file_utils.rs:18 | a file with no extension, or one that is not UTF-8, is never kept, whatever its codec |
| FileUtils.SkipCodecNeverPending | rust_src/src/file_utils.rs:21 | a file probed as `hevc` is never kept |
| FileUtils.NameSplitsAtDot | rust_src/src/file_utils.rs:18 | a name `<stem>.<ext>` with a dot-free `ext` has that stem and that extension, whatever dots the stem holds (the name `..` aside) |
| FileUtils.HiddenFileExtension | rust_src/src/file_utils.rs:18-19 | the hidden file `.hidden.mkv` has extension `mkv` and is allow-listed |
| FileUtils.ExtensionCaseSensitive | rust_src/src/file_utils.rs:14-19 | `MOVIE.MKV` is not allow-listed while `movie.mkv` is |
| FileUtils.Host.FindPendingFiles | rust_src/src/file_utils.rs:12-29 | the loop returns `Ok` of exactly the pending entries in order, after walking once and probing exactly the candidates in order |
| FileUtils.Host.WalkDir | rust_src/src/file_utils.rs:15 | the traversal's entries are the oracle's, and the walk is recorded |
| FileUtils.Host.IsFile | rust_src/src/file_utils.rs:17 | `is_file` answers from the oracle and records nothing |
| FileUtils.Host.DetectCodec | rust_src/src/file_utils.rs:20 | the probe answers from the oracle, and the probe is recorded |
| FileUtils.Host.CreateDirAll | rust_src/src/file_utils.rs:38 | directory creation answers from the oracle, and is recorded |
| FileUtils.Host.Copy | rust_src/src/file_utils.rs:40 | the copy answers from the oracle, and is recorded |
| FileUtils.Host.RunFfmpeg | rust_src/src/file_utils.rs:60 | the encoder's status comes from the oracle for that exact command line, and the run is recorded |
| FileUtils.Host.Info | rust_src/src/file_utils.rs:41 | a log line is recorded, nothing else changes |
| FileUtils.OutputStem | rust_src/src/file_utils.rs:32 | definition of the stem text with its "out" fallback; `OutputPathPlacement` is about it |
| FileUtils.GetOutputPath | rust_src/src/file_utils.rs:31-35 | definition of `get_output_path`; `OutputPathPlacement`, `OutputPathIsMkv`, `OutputIsNotInput` and `OutputPathExample` are about it |
| FileUtils.OutputPathPlacement | rust_src/src/file_utils.rs:31-35 | the output's parent is the input's (`.` when there is none) and its name is `<stem>.<suffix>.mkv`, with the stem "out" when there is none or it is not UTF-8 |
| FileUtils.OutputPathIsMkv | rust_src/src/file_utils.rs:34 | read back, the output's extension is `mkv` and its stem is `<stem>.<suffix>` |
| FileUtils.OutputIsNotInput | rust_src/src/file_utils.rs:31-35 | the output path never equals the input path |
| FileUtils.OutputPathExample | rust_src/src/file_utils.rs:31-35 | `dir/movie.avi` with `x265` gives `dir/movie.x265.mkv` |
| FileUtils.BackupProperties | rust_src/src/file_utils.rs:37-43 | the destination is the backup directory joined with the unchanged file name; the directory is created first; the copy happens exactly when that succeeded; success exactly when both steps succeed, returning the destination; each failure names its step |
| FileUtils.BackupDest | rust_src/src/file_utils.rs:39 | definition of the backup destination; `BackupProperties` and `BackupDestSameName` are about it |
| FileUtils.BackupSpec | rust_src/src/file_utils.rs:37-43 | definition of `backup_file`'s result and actions; `BackupProperties` is about it, and `Host.BackupFile` is proved to follow it |
| FileUtils.BackupDestSameName | rust_src/src/file_utils.rs:39 | two inputs share a backup destination exactly when their file names are equal |
| FileUtils.Host.BackupFile | rust_src/src/file_utils.rs:37-43 | the method's result and actions are those of `BackupSpec` |
| FileUtils.FfmpegArgv | rust_src/src/file_utils.rs:58-59 | definition of the `ffmpeg` command line; `FfmpegArgvCarriesSettings` is about it |
| FileUtils.EncodeSpec | rust_src/src/file_utils.rs:54-65 | definition of backing up and encoding into a given output; `EncodeReportsNothing`, `EncodeAfterBackup` and `EncodeOutcome` are about it |
| FileUtils.ProcessSpec | rust_src/src/file_utils.rs:45-66 | definition of `process_file`'s result and actions; the lemmas from `ProcessReportsItsFile` to `ProcessExample` are about it, and `Host.ProcessFile` is proved to follow it |
| FileUtils.FfmpegArgvCarriesSettings | rust_src/src/file_utils.rs:58-59 | the command line has 12 elements: the input, the preset and the output at fixed places, and the CRF as one to three digits that read back as the CRF |
| FileUtils.EncodeReportsNothing | rust_src/src/file_utils.rs:54-65 | backing up and encoding starts processing no other file and walks nothing |
| FileUtils.EncodeAfterBackup | rust_src/src/file_utils.rs:56-60 | the encoder runs exactly when the directory was created and the copy succeeded; it is then the last action, with the command line for the given output, after the copy, and runs only once |
| FileUtils.EncodeOutcome | rust_src/src/file_utils.rs:56-63 | success exactly when the backup succeeded, `ffmpeg` started and exited successfully; each failure is the step it happened in |
| FileUtils.ProcessReportsItsFile | rust_src/src/file_utils.rs:45-47 | every call reports exactly its own file as being processed, and walks nothing |
| FileUtils.DryRunChangesNothing | rust_src/src/file_utils.rs:48-51 | a dry run returns `Ok` and never creates, copies or encodes |
| FileUtils.EncodeOnlyAfterBackup | rust_src/src/file_utils.rs:54-60 | without dry run the encoder runs exactly when the backup to `/tmp/backup` succeeded; it is then the last action, with argv `[-y, -i, path, -c:v, libx265, -preset, preset, -crf, decimal(crf), -c:a, copy, get_output_path(path, "x265")]`, after the copy, and not before |
| FileUtils.ProcessOutcome | rust_src/src/file_utils.rs:54-65 | without dry run: `Ok` exactly when backup, launch and exit status all succeed; a launch failure and a non-zero exit are distinct errors; a backup failure is returned as is |
| FileUtils.ProcessExample | rust_src/src/file_utils.rs:45-66 | `dir/movie.avi`, with the backup succeeding, is copied to `/tmp/backup/movie.avi`, and `ffmpeg` writes `dir/movie.x265.mkv` as its last action |
| FileUtils.Host.ProcessFile | rust_src/src/file_utils.rs:45-66 | the method's result and actions, with its early returns, are those of `ProcessSpec` |
| Driver.InputDefaultsToCurrentDir | rust_src/src/main.rs:45 | with no input given the input is `.`, otherwise the given path |
| Driver.InputPath | rust_src/src/main.rs:45 | definition of the input with its `.` default; `InputDefaultsToCurrentDir` states it |
| Driver.FirstFailure | rust_src/src/main.rs:54-56 | the position found is the first failing call: every call before it succeeds |
| Driver.PendingFilesNamed | rust_src/src/main.rs:53-55 | every scanned file has a file name, so the backup's `unwrap` cannot fail on it |
| Driver.InOrder | rust_src/src/main.rs:54-58 | definition of the `for` loop with `?` over the calls' outcomes; `InOrderStopsAtFirstFailure`, `InOrderOutcome`, `InOrderKeepsCallsUpToFailure` and `InOrderChangesNothing` are about it |
| Driver.ProcessAll | rust_src/src/main.rs:54-58 | definition of the loop over the pending files with `process_file`; the `ProcessAll` lemmas are about it, and `ProcessEach` is proved to follow it |
| Driver.RunSpec | rust_src/src/main.rs:41-59 | definition of `main`'s result and actions; `RunOnFile`, `RunOnDirectory` and `RunDryRun` are about it, and `Run` is proved to follow it |
| Driver.InOrderKeepsCallsUpToFailure | rust_src/src/main.rs:54-56 | every action of a call up to and including the first failure is an action of the loop |
| Driver.InOrderStopsAtFirstFailure | rust_src/src/main.rs:54-56 | the files processed are those up to and including the first failure, in order, and none after it |
| Driver.InOrderOutcome | rust_src/src/main.rs:54-58 | the loop succeeds exactly when every call does; otherwise it fails with the first failing file and that call's error |
| Driver.InOrderChangesNothing | rust_src/src/main.rs:54-56 | when no call changes anything and all succeed, the loop succeeds and changes nothing |
| Driver.ProcessAllStopsAtFirstFailure | rust_src/src/main.rs:53-58 | over pending files: processed in order up to the first failure and no further; `Ok` exactly when every `process_file` call succeeds; otherwise the first failure's error, with its file |
| Driver.ProcessAllBacksUpAndEncodes | rust_src/src/main.rs:54-55 | without dry run, every file before the first failure has been copied to `/tmp/backup` and encoded with `ffmpeg` into its output path |
| Driver.ProcessAllDryRun | rust_src/src/main.rs:54-55 | in a dry run every file succeeds and nothing is created, copied or encoded |
| Driver.RunOnFile | rust_src/src/main.rs:47-50 | a regular-file input is processed exactly once and the directory is never walked; the run succeeds exactly when that call does |
| Driver.RunOnDirectory | rust_src/src/main.rs:52-58 | any other input is walked first; then the pending files are processed in scan order up to and including the first failure; `Ok` exactly when every call succeeds |
| Driver.RunDryRun | rust_src/src/main.rs:41-59 | a dry run succeeds and creates, copies and encodes nothing, whatever the input |
| Driver.DefaultEncoderSettings | rust_src/src/main.rs:25-30 | with the defaults, the encoder is given `-preset medium -crf 22` |
| Driver.Run | rust_src/src/main.rs:41-59 | `main`'s result and every action it performs are those of `RunSpec` |
| Driver.ProcessEach | rust_src/src/main.rs:54-56 | the `for` loop with `?` returns and performs exactly what processing the files in order, each with the run's own dry-run flag, up to the first failure, does |

## Left out

- `ffprobe` and `ffmpeg` as processes (rust_src/src/media_utils.rs, the
  command at rust_src/src/file_utils.rs:58-60). `detect_codec` is an oracle
  that yields either a trimmed codec name or an error. `from_utf8_lossy` and
  `trim` are not modelled.
- The filesystem. `WalkDir` with symlink following, `is_file`,
  `create_dir_all` and `fs::copy` are oracle answers. Only which call was
  made, and with which paths, is recorded. The traversal's order is whatever
  the oracle returns.
- The oracles are functions of their arguments, so a file probed during the
  scan and again in `process_file` gets the same answer both times. A real
  probe could differ between the two calls.
- Path parsing. Paths are given already split into components, so
  separators, `a//b`, `a/./b`, Windows prefixes and names containing `/`
  are not modelled. `Paths.Join` appends one component. Non-UTF-8 is only
  told apart from UTF-8, as single high bytes; the exact byte sequences are
  not modelled.
- rust_src/src/logging.rs (the global verbosity flag and `println!`).
  `info` lines are trace actions carrying structured content instead of
  formatted text. `init_logging` and the `verbose` count have no effect in
  the model.
- `clap` parsing. `Config.Resolve` only applies the declared defaults to
  what the command line supplied.
- The `output` option: it is accepted but never used, by the model or by the
  source.
- Error messages: the `anyhow` contexts are constructors of `Error` and carry
  no text.
- FileUtils.Host.BackupFile: requires the input to have a file name. Where
  the input has none, the source panics at its `unwrap`
  (rust_src/src/file_utils.rs:39); that panic is not modelled.
  `ProcessSpec` has the same requirement when not in a dry run.
- Driver.Run: requires a coherent world, in which every regular file has a
  file name. This is what makes the `unwrap` above safe for every file that
  `main` passes on.
