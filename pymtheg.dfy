/**
 * The small decisions of pymtheg outside the parser and the prompt loops:
 * the closing greeting, where the clip is written, and the checks made on
 * the command line before anything runs.
 */
module Pymtheg {
  import opened Wrappers

  /** The greeting of `part_of_day` for an hour of the day (0-23). */
  function PartOfDay(hour: int): (greeting: string)
    ensures greeting == "morning ahead" <==> 5 <= hour <= 11
    ensures greeting == "afternoon ahead" <==> 12 <= hour <= 19
    ensures greeting == "evening ahead" <==> 20 <= hour <= 22
    ensures greeting == "night" <==> hour < 5 || hour > 22
  {
    if 5 <= hour <= 11 then "morning ahead"
    else if 12 <= hour <= 19 then "afternoon ahead"
    else if 18 <= hour <= 22 then "evening ahead"
    else "night"
  }

  /** The evening test also covers 18 and 19, but the afternoon test has taken those hours already. */
  lemma EveningOverlapUnreachable(hour: int)
    requires 18 <= hour <= 19
    ensures PartOfDay(hour) == "afternoon ahead"
  {
  }

  /** A path as its components: `joinpath` appends one. */
  type Path = seq<string>

  /**
   * Lines 150-153: `--out` overrides `<dir>/<stem>.mp4`. The override does not
   * depend on the song, so with `--out` every song of a run goes to one path.
   */
  function OutPath(dir: Path, stem: string, out: Option<Path>): (p: Path)
    ensures out.Some? ==> p == out.value
    ensures out.None? ==> |p| == |dir| + 1 && p[..|dir|] == dir && p[|dir|] == stem + ".mp4"
  {
    match out
    case Some(path) => path
    case None => dir + [stem + ".mp4"]
  }

  /** The default output file name gives back the song's stem. */
  lemma StemOfOutPath(dir: Path, stem: string)
    ensures var name := OutPath(dir, stem, None)[|dir|]; |name| >= 4 && name[..|name| - 4] == stem
  {
    var name := OutPath(dir, stem, None)[|dir|];
    assert name == stem + ".mp4";
    assert name[..|stem|] == stem;
  }

  /** Without `--out`, songs with different stems are written to different files. */
  lemma DistinctStemsDistinctPaths(dir: Path, stem1: string, stem2: string)
    requires stem1 != stem2
    ensures OutPath(dir, stem1, None) != OutPath(dir, stem2, None)
  {
    StemOfOutPath(dir, stem1);
    StemOfOutPath(dir, stem2);
  }

  /** What the file system says about a path. */
  datatype PathFacts = PathFacts(isDir: bool, isPresent: bool)

  /** `get_args` either returns the behaviour or exits with a code. */
  datatype Verdict = Proceed | Abort(code: int)

  /** The overwrite prompt accepts "y" in either case (`response.lower() == "y"`). */
  predicate ConfirmsOverride(response: string)
  {
    response == "y" || response == "Y"
  }

  /** Lines 371-389: the checks on `--out` and `--dir`, in order; `response` answers the overwrite prompt if it is asked. */
  function Preflight(out: Option<PathFacts>, response: string, dir: PathFacts): (v: Verdict)
    ensures v.Abort? ==> v.code == 1
    ensures v == Proceed <==>
      (out.Some? ==> !out.value.isDir && (out.value.isPresent ==> ConfirmsOverride(response))) &&
      dir.isPresent && dir.isDir
  {
    if out.Some? && out.value.isDir then Abort(1)
    else if out.Some? && out.value.isPresent && !ConfirmsOverride(response) then Abort(1)
    else if !dir.isPresent then Abort(1)
    else if !dir.isDir then Abort(1)
    else Proceed
  }

  /** The overwrite prompt is shown only for an existing `--out` that is not a directory. */
  predicate AsksOverride(out: Option<PathFacts>)
  {
    out.Some? && !out.value.isDir && out.value.isPresent
  }

  /** When the prompt is not shown, the answer it would have read does not matter. */
  lemma ResponseIgnoredWithoutPrompt(out: Option<PathFacts>, r1: string, r2: string, dir: PathFacts)
    requires !AsksOverride(out)
    ensures Preflight(out, r1, dir) == Preflight(out, r2, dir)
  {
  }
}
