/**
 * utilities/statslib.py: a second DoD_Stats, textually the pygeo_lib one with `logger.log`
 * for the log calls, in a module that neither defines nor imports `match_dems`. Every call
 * therefore ends at the matching step: a `NameError` when `match` is set, an
 * `UnboundLocalError` on `ref_out_fn` when it is not. Nothing is read or written first
 * (the default names are computed before the failure and never used; only the log name is
 * printed), so the function needs no disk.
 */
module StatsLib {
  import opened Wrappers
  import opened Naming

  function DoDStats(srcDemFn: PathArg, refDemFn: PathArg, outdir: string, res: string, extent: string,
                    doMatch: bool, logFile: Option<string>, outDiffFn: Option<string>): (r: Result<()>)
    ensures r.Err?
    ensures r.error == IndexError <==> refDemFn == Listed([]) || srcDemFn == Listed([])
    ensures r.error.NameError? <==> doMatch && r.error != IndexError
    ensures r.error.UnboundLocal? <==> !doMatch && r.error != IndexError
    ensures r.error.NameError? ==> r.error.name == "match_dems"
    ensures r.error.UnboundLocal? ==> r.error.name == "ref_out_fn"
  {
    var ref := Normalize(refDemFn);
    var src := Normalize(srcDemFn);
    if ref.Err? then Err(ref.error)
    else if src.Err? then Err(src.error)
    else if doMatch then Err(NameError("match_dems"))
    else Err(UnboundLocal("ref_out_fn"))
  }
}
