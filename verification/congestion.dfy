/**
 `disable_congestion_map`: the reference-methodology script `dc.tcl` asks
 for a congestion map whenever a `DISPLAY` is set, which opens a GUI. The
 plugin rewrites the condition of that block to `false` with `re.sub`,
 building the pattern from the block's text so that the text before and
 after the condition (groups 1 and 3) is kept as it was.
 */
module CongestionMap {
  import opened Wrappers
  import opened Text
  import opened Regex

  // The three comment lines of the block, each literal split into pieces.
  const CommentLine1: string :=
    "  # Use the following to generate and" + " write out a congestion map from batch mode"
  const CommentLine2: string :=
    "  # This requires a GUI session to be" + " temporarily opened and closed so a" + " valid DISPLAY"
  const CommentLine3: string :=
    "  # must be set in your UNIX environment."

  /** The text of the block before the condition. */
  const Prefix: string :=
    "\n" + CommentLine1 + "\n" + CommentLine2 + "\n" + CommentLine3 + "\n\n  if {"

  /** The condition inside the block. */
  const Condition: string := "[info exists env(DISPLAY)]"

  /** The text of the block after the condition. */
  const Suffix: string := "} {\n    gui_start\n"

  /** The block of `dc.tcl` that is searched for, as the plugin spells it:
      a blank line, three comment lines, a blank line, the `if` line and
      the `gui_start` line. */
  const Fragment: string := Prefix + Condition + Suffix

  /** The replacement template `\g<1>false\g<3>`. */
  const Template: string := "\\g<1>false\\g<3>"

  /** What each occurrence of the block becomes. */
  const Patched: string := Prefix + "false" + Suffix

  /** The capture pattern built from a block and the condition inside it:
      the escaped block with every escaped condition turned into a group of
      its own, all wrapped in parentheses so that the text around the
      condition forms the first and last group. */
  function CapturePattern(fragment: string, cond: string): (pattern: string)
    requires |cond| > 0
    ensures |pattern| >= 2 && pattern[0] == '(' && pattern[|pattern| - 1] == ')'
    ensures !Occurs(Escape(fragment), Escape(cond)) ==> pattern == "(" + Escape(fragment) + ")"
  {
    var c := Escape(cond);
    assert !Occurs(Escape(fragment), c) ==> ReplaceAll(Escape(fragment), c, ")(" + c + ")(") == Escape(fragment) by {
      if !Occurs(Escape(fragment), c) {
        ReplaceAllWithoutOccurrence(Escape(fragment), c, ")(" + c + ")(");
      }
    }
    "(" + ReplaceAll(Escape(fragment), c, ")(" + c + ")(") + ")"
  }

  /** The condition occurs in the block exactly once, between the prefix
      and the suffix. */
  lemma FragmentHasOneCondition()
    ensures Split(Fragment, Condition) == [Prefix, Suffix]
    ensures Count(Fragment, Condition) == 1
  {
    NoBracketAroundCondition();
    SplitUniqueByMarker(Prefix, Condition, Suffix, 0);
  }

  lemma NoBracketInLine1() ensures '[' !in CommentLine1 { }
  lemma NoBracketInLine2() ensures '[' !in CommentLine2 {
    var a, b, c := "  # This requires a GUI session to be", " temporarily opened and closed so a", " valid DISPLAY";
    assert '[' !in a && '[' !in b && '[' !in c;
    assert CommentLine2 == a + b + c;
  }
  lemma NoBracketInLine3() ensures '[' !in CommentLine3 { }

  /** The condition is the only place the block has a `[`. */
  lemma NoBracketAroundCondition()
    ensures |Condition| == 26 && Condition[0] == '['
    ensures '[' !in Prefix && '[' !in Suffix
  {
    NoBracketInLine1();
    NoBracketInLine2();
    NoBracketInLine3();
  }

  /** When the first character of the condition is found nowhere else in
      the block, the capture pattern is `(` prefix `)(` condition `)(`
      suffix `)`, each escaped. */
  lemma CapturePatternShape(p: string, c: string, s: string)
    requires |c| > 0 && c[0] != '\\' && c[0] !in p && c[0] !in s
    ensures CapturePattern(p + c + s, c)
         == "(" + Escape(p) + ")(" + Escape(c) + ")(" + Escape(s) + ")"
  {
    var ep, ec, es := Escape(p), Escape(c), Escape(s);
    EscapeAppend(p + c, s);
    EscapeAppend(p, c);
    // The first character of the condition, behind its backslash if it
    // has one, occurs in the escaped block only inside the escaped
    // condition, which pins the condition down.
    var m := c[0];
    var k := |EscapeChar(m)| - 1;
    assert ec == EscapeChar(m) + Escape(c[1..]);
    assert ec[k] == m && m !in ec[..k];
    EscapeKeepsOtherChars(p, m);
    EscapeKeepsOtherChars(s, m);
    SplitUniqueByMarker(ep, ec, es, k);
    var rep := ")(" + ec + ")(";
    ReplaceAllIsJoinOfSplit(ep + ec + es, ec, rep);
    JoinTwoOrMore(ep, [es], rep);
    PatternShape(ep, ec, es);
  }

  /** ... and it reads back as exactly three groups: prefix, condition and
      suffix. */
  lemma CapturePatternHasThreeGroups(p: string, c: string, s: string)
    requires |c| > 0 && c[0] != '\\' && c[0] !in p && c[0] !in s
    ensures Lex(CapturePattern(p + c + s, c)) == Some(ThreeGroupTokens(p, c, s))
    ensures Groups(ThreeGroupTokens(p, c, s)) == Some([p, c, s])
  {
    CapturePatternShape(p, c, s);
    LexThreeGroups(p, c, s);
    GroupsOfThree(p, c, s);
  }

  /** The capture pattern built from the plugin's own block reads as the
      prefix, the condition and the suffix. */
  lemma FragmentPatternHasThreeGroups()
    ensures Lex(CapturePattern(Fragment, Condition)).Some?
    ensures Groups(Lex(CapturePattern(Fragment, Condition)).value) == Some([Prefix, Condition, Suffix])
  {
    NoBracketAroundCondition();
    CapturePatternHasThreeGroups(Prefix, Condition, Suffix);
  }

  /** The template keeps groups 1 and 3 and puts `false` between them. */
  lemma TemplateKeepsPrefixAndSuffix(p: string, c: string, s: string)
    ensures ParseTemplate(Template).Some?
    ensures Expand(ParseTemplate(Template).value, [p, c, s]) == Some(p + "false" + s)
  {
    assert Template == "\\g<" + ['1'] + ">" + ("false" + ("\\g<" + ['3'] + ">" + ""));
    assert ParseTemplate("") == Some([]);
    ParseGroupRef('3', "");
    var last := [Ref(3)] + [];
    ParsePlainText("false", "\\g<" + ['3'] + ">" + "");
    var middle := Chrs("false") + last;
    ParseGroupRef('1', "false" + ("\\g<" + ['3'] + ">" + ""));
    var pieces := [Ref(1)] + middle;
    assert ParseTemplate(Template) == Some(pieces);
    var groups := [p, c, s];
    assert Expand([Ref(1)], groups) == Some(p + []);
    assert Expand(last, groups) == Some(s + []);
    ExpandChrs("false", groups);
    ExpandAppend(Chrs("false"), last, groups);
    ExpandAppend([Ref(1)], middle, groups);
    assert p + [] + ("false" + (s + [])) == p + "false" + s;
  }

  /** The three groups together spell the block. */
  lemma BlockIsConcatOfGroups(p: string, c: string, s: string)
    ensures Concat([p, c, s]) == p + c + s
  {
    var groups := [p, c, s];
    assert Concat(groups[2..]) == s;
    assert Concat(groups[1..]) == c + s;
  }

  /** `re.sub` with the capture pattern and the template is a plain
      replace-all of the block by the block with its condition turned into
      `false`. */
  lemma SubIsBlockReplace(tcl: string, p: string, c: string, s: string)
    requires |c| > 0 && c[0] != '\\' && c[0] !in p && c[0] !in s
    ensures Sub(CapturePattern(p + c + s, c), Template, tcl) == Some(ReplaceAll(tcl, p + c + s, p + "false" + s))
  {
    CapturePatternHasThreeGroups(p, c, s);
    TemplateKeepsPrefixAndSuffix(p, c, s);
    BlockIsConcatOfGroups(p, c, s);
    SubOfLiteralGroups(CapturePattern(p + c + s, c), Template, tcl, [p, c, s], p + "false" + s);
  }

  /** Replacing the block by the block with `false` for its condition
      changes the length by `5 - |c|` per occurrence. */
  lemma BlockReplaceLength(tcl: string, p: string, c: string, s: string)
    requires |c| > 0
    ensures |ReplaceAll(tcl, p + c + s, p + "false" + s)| == |tcl| + Count(tcl, p + c + s) * (5 - |c|)
  {
    var block, patched := p + c + s, p + "false" + s;
    ReplaceAllLength(tcl, block, patched);
    var n := Count(tcl, block);
    assert |patched| - |block| == 5 - |c|;
    assert n * (|patched| - |block|) == n * (5 - |c|);
  }

  /** The patch of `disable_congestion_map` for any block `p + c + s` whose
      condition `c` starts with a character found nowhere else in the block
      (and not a backslash, which would escape differently): every
      occurrence of the block has its condition replaced by `false`, the
      text between occurrences is kept, each occurrence changes the length
      by `5 - |c|`, and the text is unchanged exactly when the block is
      absent (as long as that length change is not zero). */
  function PatchCondition(tcl: string, p: string, c: string, s: string): (r: string)
    requires |c| > 0 && c[0] != '\\' && c[0] !in p && c[0] !in s
    ensures r == Join(Split(tcl, p + c + s), p + "false" + s)
    ensures |r| == |tcl| + Count(tcl, p + c + s) * (5 - |c|)
    ensures |c| != 5 ==> (r == tcl <==> !Occurs(tcl, p + c + s))
  {
    SubIsBlockReplace(tcl, p, c, s);
    ReplaceAllFacts(tcl, p + c + s, p + "false" + s);
    BlockReplaceLength(tcl, p, c, s);
    Sub(CapturePattern(p + c + s, c), Template, tcl).value
  }

  /** `disable_congestion_map` applied to the text of `dc.tcl`: every
      leftmost, non-overlapping occurrence of the block becomes the patched
      block, and the text between occurrences is kept. */
  function DisableCongestionMap(tcl: string): (r: string)
    ensures r == Join(Split(tcl, Fragment), Patched)
  {
    NoBracketAroundCondition();
    PatchCondition(tcl, Prefix, Condition, Suffix)
  }

  /** Each occurrence of the block shortens the script by 21 characters:
      the 26-character condition becomes the 5 characters of `false`. */
  lemma DisableShortensBy21(tcl: string)
    ensures |DisableCongestionMap(tcl)| == |tcl| - 21 * Count(tcl, Fragment)
  {
    NoBracketAroundCondition();
    var n := Count(tcl, Fragment);
    assert n * (5 - |Condition|) == -21 * n;
  }

  /** The patch leaves the script alone exactly when the block is absent. */
  lemma DisableChangesIffBlockOccurs(tcl: string)
    ensures DisableCongestionMap(tcl) == tcl <==> !Occurs(tcl, Fragment)
  {
    NoBracketAroundCondition();
  }

  /** The step in `elaborate_design` that patches `dc.tcl` unless the
      congestion map is enabled. */
  function CongestionMapStep(tcl: string, enableCongestionMap: bool): (r: string)
    ensures enableCongestionMap ==> r == tcl
    ensures !enableCongestionMap ==> r == Join(Split(tcl, Fragment), Patched)
    ensures r == tcl <==> enableCongestionMap || !Occurs(tcl, Fragment)
  {
    if enableCongestionMap then tcl
    else
      DisableChangesIffBlockOccurs(tcl);
      DisableCongestionMap(tcl)
  }
}
