# Synopsys DC plugin for hammer: a Dafny model of its text logic

The plugin drives Synopsys Design Compiler from hammer. Most of what it does
is I/O: it unpacks the reference-methodology tarball, writes TCL fragments
and runs the DC binary. Inside that I/O sit a few pure text operations, and
this project models them and proves properties about them:

- **Congestion-map patch** (`disable_congestion_map`). The plugin takes the
  text of the vendor script `rm_dc_scripts/dc.tcl` and finds a fixed block in
  it: three comment lines and `if {[info exists env(DISPLAY)]} {` /
  `gui_start`. It then rewrites the condition to `false` with `re.sub`. The
  pattern is built by `re.escape`-ing the block and using `str.replace` to
  turn the escaped condition into a capture group of its own. The text
  before the condition is group 1 and the text after it is group 3, and
  both are kept by the template `\g<1>false\g<3>`. The model spells out
  each of these layers: `re.escape`, the `str.replace` that builds the
  pattern, reading that pattern back as groups of literal characters, the
  template and `re.sub`. From them it proves that the whole patch is a
  leftmost, non-overlapping replace-all of the block by
  `prefix + "false" + suffix`. `elaborate_design` runs the patch only when
  `synthesis.dc.enable_congestion_map` is false; the model takes that
  setting as a boolean.
- **Script rendering.** The command buffer (`self.output`) is written to
  `dc.tcl` as the commands joined by newlines, followed by `\nexit`.
- **Library setup in `main_step`.** Every timing database must pass an
  existence check before anything is appended. Then five commands set the
  target, synthetic and link libraries, turn off simplified verification
  mode and name the SVF file of the top module.
- **Preferred-routing fragment.** A constant TCL fragment that suppresses
  the PSYN-882 warning and then restores it.
- **Output paths.** `<result_dir>/<top>.mapped.v` and
  `<result_dir>/<top>.mapped.sdc`, built with POSIX `os.path.join`.
  `fill_outputs` raises `ValueError` when the netlist is not a file.

File existence, `os.path.isfile` and settings values are parameters: a
predicate `string -> bool` or a plain value. The command buffer is a
`seq<string>`, so appending to it and checking it are pure functions.

Modules: `Wrappers` (Option/Result), `Text` (`join`, `split`, `replace` as
Python defines them on `str`), `Regex` (the subset of `re` the patch uses),
`CongestionMap`, `Script`, `LibrarySetup`, `RoutingFragment`, `Outputs`.

Two behaviours of the code are worth stating outright:

- The patch does not require exactly one match. `re.sub` replaces every
  match and does nothing at all when there is none (line 99).
- The logging flags are set back only after a normal return (lines
  200-201). Nothing restores them if the DC run raises.

## Model

| member | source | states |
|---|---|---|
| Text.Split | hammer/synthesis/dc/__init__.py:97-113 | the reference definition of the occurrences the `str.replace` at line 97 rewrites, and the inverse of the `' '.join` at line 113 (it is Python's `str.split`, which the plugin never calls itself): at least one part; no part contains the pattern; the first part is the text before the leftmost occurrence (no earlier position matches, and the pattern matches right after it), or the whole text when there is no occurrence |
| Text.Join | hammer/synthesis/dc/__init__.py:74 | `sep.join(parts)` starts with the first part; the round trips with `Split` are `Text.JoinOfSplit` and `Text.SplitOfJoin` |
| Text.ReplaceAll | hammer/synthesis/dc/__init__.py:97 | `str.replace` never shortens the text when the replacement is at least as long as the pattern, and never lengthens it when the replacement is at most as long; the exact form is `Text.ReplaceAllIsJoinOfSplit` |
| Text.ReplaceAllWithoutOccurrence | hammer/synthesis/dc/__init__.py:97-99 | a text without the pattern comes back from `replace` unchanged |
| Text.ReplaceAllIsJoinOfSplit | hammer/synthesis/dc/__init__.py:97-99 | `replace` gives the same result as cutting the text at its occurrences and gluing the pieces back with the replacement, so the text between occurrences is kept unchanged |
| Text.JoinOfSplit | hammer/synthesis/dc/__init__.py:97-99 | round trip: gluing the pieces back with the pattern itself gives the original text |
| Text.ReplaceAllLength | hammer/synthesis/dc/__init__.py:97-99 | each occurrence changes the length by `len(rep) - len(pat)`; nothing else changes the length |
| Text.ReplaceAllUnchangedIff | hammer/synthesis/dc/__init__.py:99 | when the replacement's length differs from the pattern's, the result equals the input exactly when the pattern does not occur; an absent pattern raises no error |
| Text.SplitOfJoin | hammer/synthesis/dc/__init__.py:113 | round trip: splitting `sep.join(parts)` at a one-character separator that no part contains gives back the parts in order |
| Text.SplitUniqueByMarker | hammer/synthesis/dc/__init__.py:84-97 | if a character of the pattern occurs neither before nor after it, nor earlier in the pattern itself, then the pattern occurs exactly once in `x + pat + y` |
| Regex.Escape | hammer/synthesis/dc/__init__.py:92-96 | `re.escape` never shortens its input and leaves a text without special characters unchanged; `Regex.EscapeAppend`, `Regex.EscapeKeepsOtherChars` and `Regex.LexEscapeAlone` state the rest |
| Regex.EscapeAppend | hammer/synthesis/dc/__init__.py:92-97 | `re.escape` works character by character, so the escaped condition appears inside the escaped block, between the escaped prefix and the escaped suffix |
| Regex.EscapeKeepsOtherChars | hammer/synthesis/dc/__init__.py:92-96 | `re.escape` only adds backslashes: any other character occurs in the escaped text exactly when it occurs in the original |
| Regex.LexEscapeAlone | hammer/synthesis/dc/__init__.py:92-96 | round trip: an escaped text read as a pattern is exactly its characters as literals |
| Regex.LexThreeGroups | hammer/synthesis/dc/__init__.py:97 | `(`a`)(`b`)(`c`)` over escaped texts reads as three groups of literal characters |
| Regex.GroupsOfThree | hammer/synthesis/dc/__init__.py:97 | three literal groups read back as the texts a, b and c, in that order |
| Regex.ExpandAppend | hammer/synthesis/dc/__init__.py:99 | expanding a template piece by piece concatenates the pieces' expansions |
| Regex.Sub | hammer/synthesis/dc/__init__.py:99 | `re.sub` with a pattern of literal groups returns a text without a match unchanged; for the capture pattern of the patch, `CongestionMap.SubIsBlockReplace` proves it is a replace-all |
| CongestionMap.FragmentHasOneCondition | hammer/synthesis/dc/__init__.py:84-96 | `[info exists env(DISPLAY)]` occurs in the searched block exactly once, between the prefix and the suffix |
| CongestionMap.CapturePattern | hammer/synthesis/dc/__init__.py:92-97 | the pattern is wrapped in parentheses, and a block without the escaped condition gives a single group of the escaped block; `CongestionMap.CapturePatternShape` gives the three-group shape |
| CongestionMap.CapturePatternShape | hammer/synthesis/dc/__init__.py:92-97 | the pattern built by `replace` is `(`escaped prefix`)(`escaped condition`)(`escaped suffix`)` |
| CongestionMap.CapturePatternHasThreeGroups | hammer/synthesis/dc/__init__.py:97 | the capture pattern has exactly three groups: prefix, condition and suffix |
| CongestionMap.FragmentPatternHasThreeGroups | hammer/synthesis/dc/__init__.py:84-97 | the capture pattern the plugin builds from its own block reads as exactly three groups: the prefix, `[info exists env(DISPLAY)]` and the suffix |
| CongestionMap.TemplateKeepsPrefixAndSuffix | hammer/synthesis/dc/__init__.py:99 | for any three groups, `\g<1>false\g<3>` expands to the first group + `false` + the third group, keeping both byte for byte |
| CongestionMap.SubIsBlockReplace | hammer/synthesis/dc/__init__.py:92-99 | for a block whose condition starts with a character found nowhere else in it, the `re.sub` call is a plain replace-all of the block by prefix + `false` + suffix |
| CongestionMap.PatchCondition | hammer/synthesis/dc/__init__.py:92-99 | for such a block, every leftmost, non-overlapping occurrence becomes prefix + `false` + suffix; the text between occurrences is kept; each occurrence changes the length by `5 - len(condition)`; when that change is not zero, the text is unchanged exactly when the block is absent |
| CongestionMap.DisableCongestionMap | hammer/synthesis/dc/__init__.py:76-101 | every leftmost, non-overlapping occurrence of the block in the script becomes prefix + `false` + suffix, and the text between occurrences is kept |
| CongestionMap.DisableShortensBy21 | hammer/synthesis/dc/__init__.py:84-99 | each occurrence shortens the script by 21 characters, because the 26-character condition becomes `false` |
| CongestionMap.DisableChangesIffBlockOccurs | hammer/synthesis/dc/__init__.py:97-99 | the script is unchanged exactly when the block does not occur in it; no match is not an error |
| CongestionMap.CongestionMapStep | hammer/synthesis/dc/__init__.py:157-159 | with the congestion map enabled the script is left alone; otherwise it is patched; the script changes exactly when the map is disabled and the block occurs |
| Script.Render | hammer/synthesis/dc/__init__.py:194-196 | the script always ends with `\nexit`; an empty buffer renders as `\nexit` |
| Script.RenderedLines | hammer/synthesis/dc/__init__.py:194-196 | round trip: if the buffer is not empty and no command contains a newline, the lines of the script are the commands in order, followed by `exit` |
| Script.RenderedLinesOfEmptyBuffer | hammer/synthesis/dc/__init__.py:194-196 | an empty buffer renders as an empty line followed by `exit` |
| Script.RenderTwoCommands | hammer/synthesis/dc/__init__.py:194-196 | the buffer `set A 1`, `analyze core` renders as `set A 1\nanalyze core\nexit` |
| LibrarySetup.SetupCommands | hammer/synthesis/dc/__init__.py:113-122 | five commands, the first opening with `set_app_var target_library "` and ending with the closing quote; `LibrarySetup.TargetLibraryListsDbs` shows the quoted list gives back the databases |
| LibrarySetup.MainStep | hammer/synthesis/dc/__init__.py:108-124 | succeeds exactly when every timing database exists; on failure it logs the first missing database and leaves the buffer unchanged; on success it appends exactly the five setup commands, in order |
| LibrarySetup.TargetLibraryListsDbs | hammer/synthesis/dc/__init__.py:113 | the quoted value of the `target_library` command, split at spaces, gives back the databases in their given order, provided no path contains a space |
| RoutingFragment.PreferredRoutingDirection | hammer/synthesis/dc/__init__.py:56-74 | the fragment consists of exactly the suppress command, the restore command and a final empty line, so it ends with a newline |
| Outputs.PathJoin | hammer/synthesis/dc/__init__.py:28 | the joined path ends with the second component; an absolute second component replaces the first; otherwise the first component is kept as a prefix, followed by exactly one `/` unless it is empty or already ends with `/` |
| Outputs.MappedVerilog | hammer/synthesis/dc/__init__.py:28 | the netlist path ends with `.mapped.v` and, for a relative top-module name, starts with the result directory |
| Outputs.PostSynthSdc | hammer/synthesis/dc/__init__.py:37-39 | `post_synth_sdc` ends with `.mapped.sdc` and, for a relative top-module name, starts with the result directory; `Outputs.NetlistAndSdcShareStem` ties it to the netlist path |
| Outputs.NetlistAndSdcShareStem | hammer/synthesis/dc/__init__.py:28-39 | the netlist path and the SDC path are the same joined stem, followed by `.mapped.v` and `.mapped.sdc` respectively |
| Outputs.FillOutputs | hammer/synthesis/dc/__init__.py:25-32 | succeeds exactly when the mapped netlist is a file; the output files are then exactly `[MappedVerilog(result_dir, top)]`, that netlist, which is a file ending in `.mapped.v`; otherwise the error message names the path |
| Outputs.MissingNetlistIsReported | hammer/synthesis/dc/__init__.py:28-30 | a run in `/run` with top module `core` and no netlist fails with a message naming `/run/core.mapped.v` |

## Left out

- Subprocesses: `tar` at lines 153-155 and the DC binary at lines 197-199. They are external processes with opaque output.
- File reading and writing: the template read and write at lines 79-82 and 101, the fragment writes at lines 135-140, the `importlib.resources` copies at lines 166-172, and the script write at line 194. Only the text these operations carry is modelled.
- `get_synopsys_rm_tarball` (line 106), `get_setting` (lines 158, 161, 192), `technology.read_libs` (lines 130-132 and 143-150) and `sdc_clock_constraints` (line 140). These are hammer library calls outside this file. Their results are parameters where the model needs them.
- The logging flags switched off and on around the DC run (lines 190-191 and 200-201). They are process-wide mutable state, and the code does not restore them if the run raises.
- The argument list of `elaborate_design` (lines 174-186), including `compile_args` (lines 161-163, 185-186). `elaborate_design` uses three names it never binds. `synopsys_rm_tarball` at line 154 is a local of `main_step`. `dc_bin` at line 176 is assigned only later, at line 192. `input_files` at line 183 is defined nowhere. As written, a call raises at line 154 at the latest, before the congestion-map check at lines 157-159 and the script write at lines 194-196. `CongestionMap.CongestionMapStep` and `Script.Render` model what those lines do once they are reached.
- `steps` (lines 42-50) and the step pipeline. The listed methods (`init_environment`, `apply_constraints`, `write_outputs`, ...) are not defined in this file, and the hammer driver that runs them is not part of this model.
- `tool_config_prefix` (lines 34-35, defined again at 52-53). It only returns the constant `synthesis.dc`.
- The metal-layer loop of `generate_tcl_preferred_routing_direction` (lines 66-69). It is commented out in the code.
- Regex.Sub: models `re.sub` only for a pattern that consists entirely of parenthesised groups of literal characters, and a template of plain characters and one-digit `\g<d>` references. Any other pattern or template gives `None`, meaning "not modelled"; it does not mean that Python fails.
- Regex.Escape: follows the character set `re.escape` uses from Python 3.7 on. Earlier versions escape every non-alphanumeric character. The pattern built from the escaped text matches the same literal text either way.
- Outputs.PathJoin: models `os.path.join` with exactly two components, as the plugin calls it.
- LibrarySetup.MainStep: returns the `logger.error` message as a one-element log instead of writing to a logger.
- CongestionMap.DisableCongestionMap: does not promise that the patched script no longer contains the block. The replacement text could, in principle, join with neighbouring text to form the block again. `re.sub` makes only one pass, and so does the model.
