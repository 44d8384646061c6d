/**
 * The run's configuration (`Args` in main.rs) and the defaults the command
 * line declares for it.
 */
module Config {
  import opened Wrappers
  import opened Paths
  import Decimal

  /** The resolved options of one run; fixed for the whole run. */
  datatype Args = Args(
    input: Option<Path>,
    output: Option<Path>,   // accepted, never used
    preset: string,
    crf: Decimal.u8,
    dryRun: bool,
    verbose: Decimal.u8)

  const DefaultPreset: string := "medium"
  const DefaultCrf: Decimal.u8 := 22
  const DefaultDryRun: bool := false

  /** What the command line supplied, before the declared defaults apply. */
  datatype CommandLine = CommandLine(
    input: Option<Path>,
    output: Option<Path>,
    preset: Option<string>,
    crf: Option<Decimal.u8>,
    dryRunFlag: bool,
    verboseCount: Decimal.u8)

  /** Fill in the declared defaults for the options left out. */
  function Resolve(cl: CommandLine): Args {
    Args(cl.input, cl.output,
         cl.preset.GetOr(DefaultPreset),
         cl.crf.GetOr(DefaultCrf),
         cl.dryRunFlag || DefaultDryRun,
         cl.verboseCount)
  }

  /**
   * Options left out take the values "medium", 22 and false; options given
   * are kept as given.
   */
  lemma ResolveDefaults(cl: CommandLine)
    ensures Resolve(cl).preset == (if cl.preset.Some? then cl.preset.value else "medium")
    ensures Resolve(cl).crf == (if cl.crf.Some? then cl.crf.value else 22)
    ensures Resolve(cl).dryRun == cl.dryRunFlag
    ensures Resolve(cl).input == cl.input
  {
  }
}
