/** The output-naming policy the differencing functions share. */
module Naming {
  import opened Wrappers
  import opened Paths

  /** A path argument that callers pass either as a string or as a list of strings. */
  datatype PathArg = Single(path: string) | Listed(items: seq<string>)

  /** `if type(fn) is list: fn = fn[0]`. */
  function Normalize(p: PathArg): (r: Result<string>)
    ensures p.Single? ==> r == Ok(p.path)
    ensures p.Listed? && p.items != [] ==> r == Ok(p.items[0])
    ensures p.Listed? && p.items == [] ==> r == Err(IndexError)
  {
    match p
    case Single(s) => Ok(s)
    case Listed(items) => if items == [] then Err(IndexError) else Ok(items[0])
  }

  /** DoD_Stats' default difference path: the output directory glued to the source stem, no separator. */
  function DefaultDiffPath(outdir: string, src: string): string {
    outdir + Basename(Stem(src)) + "_diff.tif"
  }

  /** DoD_Stats' default log path. */
  function DefaultStatsPath(outdir: string, src: string): string {
    outdir + Basename(Stem(src)) + "_stats.txt"
  }

  /** `os.path.join(outdir, os.path.splitext(os.path.split(fn)[-1])[0] + suffix)`. */
  function OutputPath(outdir: string, fn: string, suffix: string): string {
    Join(outdir, Stem(Basename(fn)) + suffix)
  }

  function MatchedPath(outdir: string, fn: string): string {
    OutputPath(outdir, fn, "_matched.tif")
  }

  function ShiftedPath(outdir: string, fn: string): string {
    OutputPath(outdir, fn, "_shifted.tif")
  }

  /**
   * match_diff's choice of output directory and difference path: beside the source when
   * no output is given, the output itself when it names a .tif, otherwise
   * `Matched_DoD.tif` inside it.
   */
  function MatchDiffTargets(src: string, outdir: Option<string>): (string, string) {
    if outdir.None? then (Dirname(src), Stem(src) + "_diff.tif")
    else if EndsWith(outdir.value, ".tif") then (outdir.value, outdir.value)
    else (outdir.value, Join(outdir.value, "Matched_DoD.tif"))
  }

  /** match_diff's default statistics log. */
  function AlignStatsPath(outdir: string, alignStatsFn: Option<string>): string {
    alignStatsFn.GetOr(Join(outdir, "Matched_DoD_Stats.txt"))
  }

  lemma StemHasNoSep(fn: string)
    ensures Sep !in Stem(Basename(fn))
  {
    var b := Basename(fn);
    StemIsPrefix(b);
    var k := StemEnd(b);
    forall i | 0 <= i < k
      ensures b[..k][i] != Sep
    {
      assert b[..k][i] == b[i];
    }
  }

  /**
   * The default difference and log names, built as `basename(splitext(src)[0])`, use the
   * same stem as the `_matched`/`_shifted` names, built as `splitext(split(src)[-1])[0]`,
   * and are the output directory glued directly to it.
   */
  lemma DefaultPathsUseSourceStem(outdir: string, src: string)
    ensures DefaultDiffPath(outdir, src) == outdir + Stem(Basename(src)) + "_diff.tif"
    ensures DefaultStatsPath(outdir, src) == outdir + Stem(Basename(src)) + "_stats.txt"
    ensures EndsWith(DefaultDiffPath(outdir, src), ".tif")
  {
    StemBasenameCommute(src);
    assert EndsWith("_diff.tif", ".tif");
    EndsWithAppend(outdir + Basename(Stem(src)), "_diff.tif", ".tif");
  }

  /** An output name lies in the output directory and is the input's stem plus the suffix. */
  lemma OutputPathPlacement(outdir: string, fn: string, suffix: string)
    requires Sep !in suffix
    ensures Basename(OutputPath(outdir, fn, suffix)) == Stem(Basename(fn)) + suffix
    ensures outdir == [] || outdir[|outdir| - 1] != Sep ==> Dirname(OutputPath(outdir, fn, suffix)) == outdir
    ensures EndsWith(OutputPath(outdir, fn, suffix), suffix)
  {
    StemHasNoSep(fn);
    var name := Stem(Basename(fn)) + suffix;
    assert Sep !in name;
    BasenameJoin(outdir, name);
    if outdir == [] || outdir[|outdir| - 1] != Sep {
      DirnameJoin(outdir, name);
    }
    assert EndsWith(name, suffix);
    EndsWithJoin(outdir, name, suffix);
  }

  /** Two inputs get the same `_matched` name exactly when their stems agree. */
  lemma MatchedPathsCollide(outdir: string, a: string, b: string)
    ensures MatchedPath(outdir, a) == MatchedPath(outdir, b) <==> Stem(Basename(a)) == Stem(Basename(b))
  {
    OutputPathPlacement(outdir, a, "_matched.tif");
    OutputPathPlacement(outdir, b, "_matched.tif");
    if MatchedPath(outdir, a) == MatchedPath(outdir, b) {
      var x, y := Stem(Basename(a)), Stem(Basename(b));
      assert x + "_matched.tif" == y + "_matched.tif";
      assert |x| == |y|;
      assert x == (x + "_matched.tif")[..|x|];
    }
  }

  /** Removing the extension and appending a separator-free name keeps the directory. */
  lemma DirnameStemSuffix(p: string, suffix: string)
    requires Sep !in suffix
    ensures Dirname(Stem(p) + suffix) == Dirname(p)
  {
    StemSuffixKeepsHead(p, suffix);
    DirnameOfSameHead(p, Stem(p) + suffix);
  }

  /**
   * The three cases of match_diff's difference path; in each the path ends with `.tif`,
   * and without an output directory it lies beside the source.
   */
  lemma MatchDiffTargetCases(src: string, outdir: Option<string>)
    ensures var (dir, diff) := MatchDiffTargets(src, outdir);
      EndsWith(diff, ".tif") &&
      (outdir.None? ==> dir == Dirname(src) && Dirname(diff) == Dirname(src) && diff == Stem(src) + "_diff.tif") &&
      (outdir.Some? && EndsWith(outdir.value, ".tif") ==> dir == outdir.value && diff == outdir.value) &&
      (outdir.Some? && !EndsWith(outdir.value, ".tif") ==>
         dir == outdir.value && Basename(diff) == "Matched_DoD.tif" && diff == Join(outdir.value, "Matched_DoD.tif"))
  {
    var (dir, diff) := MatchDiffTargets(src, outdir);
    if outdir.None? {
      DirnameStemSuffix(src, "_diff.tif");
      assert EndsWith("_diff.tif", ".tif");
      EndsWithAppend(Stem(src), "_diff.tif", ".tif");
    } else if !EndsWith(outdir.value, ".tif") {
      BasenameJoin(outdir.value, "Matched_DoD.tif");
      assert EndsWith("Matched_DoD.tif", ".tif");
      EndsWithJoin(outdir.value, "Matched_DoD.tif", ".tif");
    }
  }

  /**
   * A given statistics path is used as is; the default is `Matched_DoD_Stats.txt` inside the
   * output directory.
   */
  lemma AlignStatsPathPlacement(outdir: string, alignStatsFn: Option<string>)
    ensures alignStatsFn.Some? ==> AlignStatsPath(outdir, alignStatsFn) == alignStatsFn.value
    ensures alignStatsFn.None? ==> Basename(AlignStatsPath(outdir, alignStatsFn)) == "Matched_DoD_Stats.txt"
    ensures alignStatsFn.None? && (outdir == [] || outdir[|outdir| - 1] != Sep) ==>
      Dirname(AlignStatsPath(outdir, alignStatsFn)) == outdir
  {
    if alignStatsFn.None? {
      assert Sep !in "Matched_DoD_Stats.txt";
      BasenameJoin(outdir, "Matched_DoD_Stats.txt");
      if outdir == [] || outdir[|outdir| - 1] != Sep {
        DirnameJoin(outdir, "Matched_DoD_Stats.txt");
      }
    }
  }
}
