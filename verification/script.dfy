/**
 The command buffer and its rendering into the `dc.tcl` run script: the
 buffered commands joined by newlines, then a newline and `exit`.
 */
module Script {
  import opened Text

  /** The directive that ends every run script. */
  const Exit: string := "exit"

  /** The script text written for a buffer of commands. */
  function Render(buffer: seq<string>): (script: string)
    ensures |script| >= 5 && script[|script| - 5..] == "\nexit"
    ensures |buffer| == 0 ==> script == "\nexit"
  {
    Join(buffer, "\n") + "\n" + Exit
  }

  /** Round trip: when no command spans several lines, the lines of the
      script are the buffered commands in order, followed by `exit`. */
  lemma RenderedLines(buffer: seq<string>)
    requires |buffer| >= 1
    requires forall i :: 0 <= i < |buffer| ==> '\n' !in buffer[i]
    ensures Split(Render(buffer), "\n") == buffer + [Exit]
  {
    JoinSnoc(buffer, Exit, "\n");
    var lines := buffer + [Exit];
    forall i | 0 <= i < |lines| ensures "\n"[0] !in lines[i] {
      if i == |buffer| {
        assert lines[i] == Exit;
      } else {
        assert lines[i] == buffer[i];
      }
    }
    SplitOfJoin(lines, "\n");
  }

  /** An empty buffer renders as a blank line followed by `exit`. */
  lemma RenderedLinesOfEmptyBuffer()
    ensures Split(Render([]), "\n") == ["", Exit]
  {
    var lines := ["", Exit];
    assert Join(lines[1..], "\n") == Exit;
    assert Render([]) == Join(lines, "\n");
    forall i | 0 <= i < |lines| ensures "\n"[0] !in lines[i] { }
    SplitOfJoin(lines, "\n");
  }

  /** A buffer of two commands. */
  lemma RenderTwoCommands()
    ensures Render(["set A 1", "analyze core"]) == "set A 1\nanalyze core\nexit"
  {
  }
}
