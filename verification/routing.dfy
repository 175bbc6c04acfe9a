/**
 `generate_tcl_preferred_routing_direction`: a TCL fragment that adds the
 PSYN-882 warning to `suppress_errors` and then takes it out again, ending
 in a newline. The per-layer commands that would sit between the two are
 disabled in the plugin, so nothing else is generated.
 */
module RoutingFragment {
  import opened Text

  /** Suppress PSYN-882 while the layer routing is built. */
  const SuppressLine: string :=
    "set suppress_errors  " + "[concat $suppress_errors  " + "[list PSYN-882]]"

  /** Stop suppressing PSYN-882. */
  const RestoreLine: string :=
    "set suppress_errors  " + "[lminus $suppress_errors  " + "[list PSYN-882]]"

  /** The generated fragment: the two commands and a final empty line,
      joined by newlines. */
  function PreferredRoutingDirection(): (tcl: string)
    ensures |tcl| >= 1 && tcl[|tcl| - 1] == '\n'
    ensures Split(tcl, "\n") == [SuppressLine, RestoreLine, ""]
  {
    var lines := [SuppressLine, RestoreLine, ""];
    SingleLines();
    forall i | 0 <= i < |lines| ensures "\n"[0] !in lines[i] { }
    SplitOfJoin(lines, "\n");
    JoinTwoOrMore(RestoreLine, [""], "\n");
    JoinTwoOrMore(SuppressLine, [RestoreLine, ""], "\n");
    assert [SuppressLine] + [RestoreLine, ""] == lines;
    Join(lines, "\n")
  }

  /** Neither command spans more than one line. */
  lemma SingleLines()
    ensures '\n' !in SuppressLine && '\n' !in RestoreLine
  {
  }
}
