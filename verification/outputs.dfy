/**
 Where the plugin expects its results and how it collects them:
 `<result_dir>/<top>.mapped.v` for the netlist, which must exist after a
 run, and `<result_dir>/<top>.mapped.sdc` for the constraints.
 */
module Outputs {
  import opened Wrappers

  /** POSIX `os.path.join(a, b)`: an absolute `b` replaces `a`; otherwise
      `b` is appended to `a` with one `/` between them, unless `a` is empty
      or already ends in `/`. */
  function PathJoin(a: string, b: string): (path: string)
    ensures |path| >= |b| && path[|path| - |b|..] == b
    ensures (|b| > 0 && b[0] == '/') ==> path == b
    ensures !(|b| > 0 && b[0] == '/') ==>
              |path| >= |a| && path[..|a|] == a
              && |path| - |a| - |b| == (if |a| == 0 || a[|a| - 1] == '/' then 0 else 1)
              && (|path| - |a| - |b| == 1 ==> path[|a|] == '/')
  {
    if |b| > 0 && b[0] == '/' then b
    else if |a| == 0 || a[|a| - 1] == '/' then a + b
    else a + "/" + b
  }

  const MappedVerilogSuffix: string := ".mapped.v"
  const MappedSdcSuffix: string := ".mapped.sdc"

  /** The mapped netlist, `<result_dir>/<top>.mapped.v`. */
  function MappedVerilog(resultDir: string, topModule: string): (path: string)
    ensures |path| >= |MappedVerilogSuffix| && path[|path| - |MappedVerilogSuffix|..] == MappedVerilogSuffix
    ensures (|topModule| == 0 || topModule[0] != '/') ==> |path| > |resultDir| && path[..|resultDir|] == resultDir
  {
    PathJoinAppend(resultDir, topModule, MappedVerilogSuffix);
    PathJoin(resultDir, topModule + MappedVerilogSuffix)
  }

  /** `post_synth_sdc`: the mapped constraints, `<result_dir>/<top>.mapped.sdc`. */
  function PostSynthSdc(resultDir: string, topModule: string): (path: string)
    ensures |path| >= |MappedSdcSuffix| && path[|path| - |MappedSdcSuffix|..] == MappedSdcSuffix
    ensures (|topModule| == 0 || topModule[0] != '/') ==> |path| > |resultDir| && path[..|resultDir|] == resultDir
  {
    PathJoinAppend(resultDir, topModule, MappedSdcSuffix);
    PathJoin(resultDir, topModule + MappedSdcSuffix)
  }

  /** A suffix that is not absolute can be joined before or after: the
      path of `x + suffix` is the path of `x` followed by `suffix`. */
  lemma PathJoinAppend(a: string, x: string, suffix: string)
    requires |suffix| > 0 && suffix[0] != '/'
    ensures PathJoin(a, x + suffix) == PathJoin(a, x) + suffix
  {
    if |x| > 0 {
      assert (x + suffix)[0] == x[0];
    }
  }

  /** The netlist and the constraints share directory and stem,
      `os.path.join(result_dir, top)`: they differ only in the suffix. */
  lemma NetlistAndSdcShareStem(resultDir: string, topModule: string)
    ensures MappedVerilog(resultDir, topModule) == PathJoin(resultDir, topModule) + MappedVerilogSuffix
    ensures PostSynthSdc(resultDir, topModule) == PathJoin(resultDir, topModule) + MappedSdcSuffix
  {
    PathJoinAppend(resultDir, topModule, MappedVerilogSuffix);
    PathJoinAppend(resultDir, topModule, MappedSdcSuffix);
  }

  /** `fill_outputs`: after a run the mapped netlist must be a file; the
      output files are then exactly that netlist. Otherwise the plugin
      raises a `ValueError` naming the path. */
  function FillOutputs(resultDir: string, topModule: string, isFile: string -> bool)
    : (r: Result<seq<string>, string>)
    ensures r.Ok? <==> isFile(MappedVerilog(resultDir, topModule))
    ensures r.Ok? ==> r.value == [MappedVerilog(resultDir, topModule)]
    ensures r.Ok? ==> |r.value| == 1 && isFile(r.value[0])
    ensures r.Ok? ==> var v := r.value[0];
              |v| >= |MappedVerilogSuffix| && v[|v| - |MappedVerilogSuffix|..] == MappedVerilogSuffix
    ensures r.Err? ==> r.error == "Output mapped verilog " + MappedVerilog(resultDir, topModule) + " not found"
  {
    var mappedV := MappedVerilog(resultDir, topModule);
    if !isFile(mappedV) then Err("Output mapped verilog " + mappedV + " not found")
    else Ok([mappedV])
  }

  /** A run in `/run` for top module `core` without a netlist fails, naming
      `/run/core.mapped.v`. */
  lemma MissingNetlistIsReported()
    ensures FillOutputs("/run", "core", (p: string) => false)
         == Err("Output mapped verilog " + "/run/core.mapped.v" + " not found")
  {
    assert "core" + MappedVerilogSuffix == "core.mapped.v";
    assert PathJoin("/run", "core.mapped.v") == "/run" + "/" + "core.mapped.v";
    assert MappedVerilog("/run", "core") == "/run/core.mapped.v";
  }
}
