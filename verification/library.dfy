/**
 The library setup of `main_step`: every timing database must exist
 before any command is buffered; then five commands name the target,
 synthetic and link libraries, switch off the simplified verification
 mode and name the SVF file of the top module.
 */
module LibrarySetup {
  import opened Text

  /** What the target-library command starts with. */
  const TargetLibraryHead: string := "set_app_var target_library \""

  /** The five commands the setup buffers, in order. */
  function SetupCommands(timingDbs: seq<string>, topModule: string): (cmds: seq<string>)
    ensures |cmds| == 5
    ensures |cmds[0]| > |TargetLibraryHead| && cmds[0][..|TargetLibraryHead|] == TargetLibraryHead
    ensures cmds[0][|cmds[0]| - 1] == '"'
  {
    [ TargetLibraryHead + Join(timingDbs, " ") + "\"",
      "set_app_var synthetic_library dw_foundation.sldb",
      "set_app_var link_library \"* $target_library $synthetic_library\"",
      "set_app_var simplified_verification_mode false",
      "set_svf results/" + topModule + ".mapped.svf" ]
  }

  /** Check every timing database with `pathExists`; on the first missing
      one, log it and give up with the buffer untouched, otherwise append
      the setup commands. */
  method MainStep(timingDbs: seq<string>, pathExists: string -> bool, topModule: string,
                  buffer: seq<string>)
    returns (ok: bool, newBuffer: seq<string>, log: seq<string>)
    ensures ok <==> forall i :: 0 <= i < |timingDbs| ==> pathExists(timingDbs[i])
    ensures !ok ==> newBuffer == buffer
    ensures !ok ==> exists i :: 0 <= i < |timingDbs| && !pathExists(timingDbs[i])
                      && (forall j :: 0 <= j < i ==> pathExists(timingDbs[j]))
                      && log == ["Cannot find " + timingDbs[i]]
    ensures ok ==> log == [] && newBuffer == buffer + SetupCommands(timingDbs, topModule)
  {
    var i := 0;
    while i < |timingDbs|
      invariant 0 <= i <= |timingDbs|
      invariant forall j :: 0 <= j < i ==> pathExists(timingDbs[j])
    {
      if !pathExists(timingDbs[i]) {
        return false, buffer, ["Cannot find " + timingDbs[i]];
      }
      i := i + 1;
    }
    newBuffer := buffer + SetupCommands(timingDbs, topModule);
    return true, newBuffer, [];
  }

  /** The target-library command lists the databases between its quotes,
      separated by single spaces and in the given order: splitting the
      quoted text at spaces gives them back, provided no path holds a
      space. */
  lemma TargetLibraryListsDbs(timingDbs: seq<string>, topModule: string)
    requires |timingDbs| >= 1
    requires forall i :: 0 <= i < |timingDbs| ==> ' ' !in timingDbs[i]
    ensures var line := SetupCommands(timingDbs, topModule)[0];
            |line| >= |TargetLibraryHead| + 1
            && line[..|TargetLibraryHead|] == TargetLibraryHead
            && line[|line| - 1] == '"'
            && Split(line[|TargetLibraryHead|..|line| - 1], " ") == timingDbs
  {
    var line := SetupCommands(timingDbs, topModule)[0];
    var listed := Join(timingDbs, " ");
    assert line == TargetLibraryHead + listed + "\"";
    assert line[|TargetLibraryHead|..|line| - 1] == listed;
    SplitOfJoin(timingDbs, " ");
  }
}
