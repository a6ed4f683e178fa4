# MakeAdditions rewrite engine, modelled in Dafny

MakeAdditions replays a recorded native build (archiver calls, MPI compile
and link calls, `mv`, CMake link-script calls) as a build of LLVM bitcode.
This project models the engine's core and proves properties about it. The
core has three parts:

- **The rewrite rules.** Each rule has an acceptance test and a token
  rewrite:
  - `ar` becomes an `llvm-link` that writes `libX.a.bc`;
  - `mpicc -c` becomes `clang -emit-llvm -O0 -g`;
  - the MPI link becomes an `llvm-link` or an `llvm-ar qc`, with library
    substitution and pruning of inputs already contained in another input;
  - `mv` moves the bitcode files instead of the object files;
  - the CMake link-script rule hands the script's first line to the first
    other rule that accepts it.
- **The dependency registry**, which `MakeScript.register` grows: library
  names map to bitcode archives, and an artifact's basename maps to its
  `.bc` inputs.
- **The command container `MakeScript`**: ordered appends, rendering as a
  shell script, and the policy that skips commands without effect and stops
  at the first failure unless asked to keep going.

The modules follow the source files:

| module | source |
|---|---|
| `Strings` | Python's `str.split`, `str.join`, `list.index`, `list.remove`, `os.path` helpers |
| `Patterns` | the `re.search` patterns |
| `Commands` | commands, the toolchain constants, the shared token passes |
| `Ar`, `Mv`, `MpiccCompile`, `MpiccLink`, `CmakeLink` | one module per rule |
| `Transformers` | the rule set and the CMake rule's dispatch |
| `Make` | `MakeScript` |

How the model is built:

- **Commands are values.** A rule returns a new command instead of
  assigning `cmd.bashcmd`.
- **Imperative rule bodies are methods.** Each method is proved equal to a
  function that specifies it. Lemmas about those functions state what the
  rule promises.
- **`MakeScript` is a class.** Its fields `cmds`, `libs` and `libDeps` are
  updated by `Register`, `AppendCmd`, `AppendCmdList` and `FromCommands`.
- **Python exceptions are error results.** The `IndexError` of a trailing
  `-o`, the `ValueError` of `list.remove`, the unreadable link script and
  `exit(-1)` all become `Result` errors.

Behaviour of the code worth noting:

- Pruning compares `dep` with the entries of other inputs' recorded
  dependency lists: by name, or by a file comparison of those entries. It
  does not compare two link inputs with each other.
- `mpicc_compile` inserts the include path at index `pos-1`. When `-o` is
  the first argument, the include path therefore lands in front of `-O0`.
  `-O0` is the first token only when `-o` is not the first argument
  (`MpiccCompile.OutputRenamedIncludeInserted`).
- The loop at `mpicc_compile.py:58-60` only rebinds a local variable. Object
  files other than the output keep their `.o` name
  (`MpiccCompile.NoOutputNoInclude`).
- The rules raise Python exceptions on malformed input instead of skipping
  it.

## Model

| member | source | states |
|---|---|---|
| Commands.Args | makeadditions/transform/llvm/ar.py:25 | The words after the program name are all whitespace-free words |
| Commands.RenameObjectSpec | makeadditions/transform/llvm/ar.py:34 | A renamed token never ends in ".o". An object file `x.o` becomes `x.bc`, keeping its stem. Every other token is unchanged. Renaming twice is renaming once |
| Commands.RenameObjectWord | makeadditions/transform/llvm/ar.py:34 | Renaming a whitespace-free word gives a whitespace-free word |
| Commands.RenameObjects | makeadditions/transform/llvm/mpicc_link.py:55 | The renamed list has the same length and holds, at each position, the rename of the token there |
| Commands.RenameObjectsSpec | makeadditions/transform/llvm/mpicc_link.py:55 | After renaming no token ends in ".o". Tokens that did not end in ".o" stay in place. Words stay words |
| Commands.WithoutFlags | makeadditions/transform/llvm/mpicc_compile.py:30 | A token survives the optimizer filter exactly when it was there and is not a flag. The list never grows |
| Commands.WithoutFlagsCounts | makeadditions/transform/llvm/mpicc_compile.py:30 | The filter keeps every token that is not a flag exactly as often as it occurs, and no flag |
| Commands.WithoutFlagsAppend | makeadditions/transform/llvm/mpicc_compile.py:30 | Filtering a concatenation is concatenating the filtered parts, so the order of the tokens is kept |
| Commands.WithoutFlagsWords | makeadditions/transform/llvm/mpicc_link.py:31 | Filtering a list of words leaves words |
| Commands.RenderTokens | makeadditions/transform/llvm/ar.py:37 | `prefix + " " + " ".join(ts)` splits back into the prefix's words followed by exactly `ts` |
| Patterns.ArchiveMatchPosition | makeadditions/transform/llvm/ar.py:17 | A successful archive search has a position where `kw [-]?[F]+ ` ends and a `[^ ]+\.a` argument follows |
| Patterns.SearchLibFound | makeadditions/MakeScript.py:40-41 | A successful library search is the library group found right after some position's flag head |
| Patterns.LibGroupShape | makeadditions/MakeScript.py:40-41 | Group 1 is a directory part, "lib", group 2 (never empty) and ".a". With `\.a.bc`, ".a", any character and "bc" |
| Patterns.LastDotA | makeadditions/MakeScript.py:41 | Finds the last `\.a` (or `\.a.bc`) in a range, as the greedy group backtracks to it. None exactly when the range has no match |
| Patterns.LastLib | makeadditions/MakeScript.py:41 | Finds the last "lib" in a range, as the greedy `[^ ]*` backtracks to it. None exactly when the range has none |
| Patterns.HeadAndArchiveWords | makeadditions/transform/llvm/ar.py:15-20 | A command with a program word, a flag word and an archive argument splits into at least three words |
| Ar.CanApply | makeadditions/transform/llvm/ar.py:15-20 | A command is accepted when it starts with "ar " and has an `ar [-]?[cruqs]+ <archive>.a` match, or starts with "/usr/bin/ar " and has an `ar [-]?[qc]+ <archive>.a` match |
| Ar.ApplicableHasArchive | makeadditions/transform/llvm/ar.py:15-20 | An accepted command has at least two arguments, so the rewrite never raises IndexError |
| Ar.LinkArgsShape | makeadditions/transform/llvm/ar.py:25-34 | The link arguments are "-o", the archive with ".bc" appended, then the remaining arguments with object files renamed |
| Ar.LinkArgsWords | makeadditions/transform/llvm/ar.py:34 | The link arguments are words, as many as the command's arguments |
| Ar.RewriteWords | makeadditions/transform/llvm/ar.py:37 | The new line splits into the linker's words followed by the link arguments. The directory is kept |
| Ar.Apply | makeadditions/transform/llvm/ar.py:23-38 | The step-by-step edit gives the rule's rewrite, including IndexError for fewer than two arguments |
| Mv.CanApply | makeadditions/transform/llvm/mv.py:13-15 | A command is accepted exactly when it starts with "mv " |
| Mv.RenameEach | makeadditions/transform/llvm/mv.py:22-27 | The loop yields each argument renamed, in order, one per argument |
| Mv.Apply | makeadditions/transform/llvm/mv.py:18-30 | The rule's result is the rewrite: `mv` with the renamed arguments, or "" when there are none |
| Mv.RewriteWords | makeadditions/transform/llvm/mv.py:29 | The result is "" exactly when there are no arguments. Otherwise it starts with "mv " and splits into "mv" and the renamed arguments |
| Mv.MoveLine | makeadditions/transform/llvm/mv.py:29 | `"mv " + " ".join(fs)` starts with "mv " and splits into "mv" and `fs` |
| Mv.RewriteOfWords | makeadditions/transform/llvm/mv.py:20-29 | `mv f1 ... fn` becomes `mv` with each `fi` renamed, e.g. `mv a.o b.o notes.txt` becomes `mv a.bc b.bc notes.txt` |
| MpiccCompile.CanApply | makeadditions/transform/llvm/mpicc_compile.py:18-21 | A command is accepted when it starts with "/usr/bin/mpicc", contains " -c " and does not contain "-o /dev/null" |
| MpiccCompile.Insert | makeadditions/transform/llvm/mpicc_compile.py:56 | `list.insert(i, x)`: one element longer, `x` at `i`, and removing it gives back the list |
| MpiccCompile.BaseTokensSpec | makeadditions/transform/llvm/mpicc_compile.py:27-33 | "-O0" comes first, no optimizer flag follows it, and every other argument is kept |
| MpiccCompile.NoOutputNoInclude | makeadditions/transform/llvm/mpicc_compile.py:52-62 | Without "-o" the tokens are the base tokens unchanged: no include path, and object files not renamed |
| MpiccCompile.OutputRenamedIncludeInserted | makeadditions/transform/llvm/mpicc_compile.py:52-56 | A trailing "-o" raises IndexError. Otherwise the include path sits at `pos-1`, "-o" is followed by an output that no longer ends in ".o", and removing the include path gives the base tokens with only the output renamed. "-O0" stays first exactly when "-o" is not the first argument |
| MpiccCompile.CompileTokensWords | makeadditions/transform/llvm/mpicc_compile.py:52-56 | The final tokens are words |
| MpiccCompile.RewriteWords | makeadditions/transform/llvm/mpicc_compile.py:45-62 | The new line starts with `CLANG + " -emit-llvm "`. It splits into the compiler's words, "-emit-llvm", "-g" exactly when the tokens lack it, and the final tokens. The directory is kept |
| MpiccCompile.LineWords | makeadditions/transform/llvm/mpicc_compile.py:45-62 | `c -emit-llvm [-g ]t1 ... tn` splits into `c`'s words, "-emit-llvm", the optional "-g" and the tokens |
| MpiccCompile.Apply | makeadditions/transform/llvm/mpicc_compile.py:24-63 | The step-by-step edit (filter, "-O0", "-g", rename output, insert include path) gives the rule's rewrite |
| MpiccLink.CanApply | makeadditions/transform/llvm/mpicc_link.py:17-22 | A command is accepted when it starts with "/usr/bin/mpicc" and contains none of " -c ", "-o /dev/null", ".c ", and does not end in ".c" |
| MpiccLink.DropOptions | makeadditions/transform/llvm/mpicc_link.py:58-60 | A token survives exactly when it was there and is not an option (`-`, `'-`, `"-`), or is "-o" |
| MpiccLink.DropOptionsCounts | makeadditions/transform/llvm/mpicc_link.py:58-60 | Every token that is not an option, and "-o", is kept exactly as often as it occurs; no other option is kept |
| MpiccLink.DropOptionsAppend | makeadditions/transform/llvm/mpicc_link.py:58-60 | Dropping options from a concatenation is concatenating the parts without options, so the order is kept |
| MpiccLink.MarkOutputSpec | makeadditions/transform/llvm/mpicc_link.py:33-40 | Without "-o" nothing changes and there is no target. A trailing "-o" raises IndexError. Otherwise the output gets the executable marker (unless it contains ".so") and ".bc", becomes the target, and no other token changes |
| MpiccLink.LibFlagsSpec | makeadditions/transform/llvm/mpicc_link.py:43-46 | `-l<n>` becomes the registered archive of `lib<n>` when there is one. Every other token is kept. The count is unchanged |
| MpiccLink.ArchivesSpec | makeadditions/transform/llvm/mpicc_link.py:49-52 | `<p>.a` becomes the registered archive of `basename(p)` when there is one. Every other token is kept. The count is unchanged |
| MpiccLink.PassesSpec | makeadditions/transform/llvm/mpicc_link.py:31-60 | After the passes no token ends in ".o" and no option other than "-o" is left. Every token is the rename of an argument, of a registered bitcode archive or of the target |
| MpiccLink.ScanDeps | makeadditions/transform/llvm/mpicc_link.py:82-99 | The inner loop removes one `dep` exactly when `dep` is present and some entry equals it or compares identical. A failed comparison never removes |
| MpiccLink.CheckAgainstOthers | makeadditions/transform/llvm/mpicc_link.py:68-99 | The middle loop is the fold of the inner scan over the other bitcode inputs that have recorded dependencies |
| MpiccLink.Prune | makeadditions/transform/llvm/mpicc_link.py:62-99 | The outer loop appends every token and checks each bitcode token against the others |
| MpiccLink.MiddleStepSpec | makeadditions/transform/llvm/mpicc_link.py:68-81 | One step removes one `dep` exactly when `dep` is present and the other input lists it (lookup by basename, then basename without ".bc"). Otherwise nothing changes |
| MpiccLink.MiddleFoldOnlyDep | makeadditions/transform/llvm/mpicc_link.py:82-93 | The middle loop only removes occurrences of `dep` |
| MpiccLink.MiddleFoldUnlisted | makeadditions/transform/llvm/mpicc_link.py:68-81 | When no other input lists `dep`, the middle loop changes nothing |
| MpiccLink.MiddleFoldListed | makeadditions/transform/llvm/mpicc_link.py:82-93 | When another input lists `dep` and it occurs at most once, no `dep` is left |
| MpiccLink.PrunedSubset | makeadditions/transform/llvm/mpicc_link.py:62-99 | Pruning never adds a token, and keeps every non-bitcode token as often as it occurs |
| MpiccLink.PrunedKeepsUnlisted | makeadditions/transform/llvm/mpicc_link.py:62-99 | A token that no other input lists is kept as often as it occurs |
| MpiccLink.PrunedStaysOut | makeadditions/transform/llvm/mpicc_link.py:62-66 | Later tokens other than `dep` never bring `dep` back |
| MpiccLink.PrunedDropsListed | makeadditions/transform/llvm/mpicc_link.py:62-99 | A bitcode input that another bitcode input lists (by name or identical contents) is dropped, however often it occurs |
| MpiccLink.BuildsArchive | makeadditions/transform/llvm/mpicc_link.py:102 | The line builds a shared object when it contains "shared" or "-rdynamic" anywhere |
| MpiccLink.BlankedSpec | makeadditions/transform/llvm/mpicc_link.py:103-106 | Blanking keeps the length and replaces only the first "-o", by "" |
| MpiccLink.LinkLine | makeadditions/transform/llvm/mpicc_link.py:115-116 | Without "shared" or "-rdynamic" the line is `LLVMLINK` followed by the kept tokens, each once, in first-seen order |
| MpiccLink.ArchiveLine | makeadditions/transform/llvm/mpicc_link.py:102-114 | With "shared" or "-rdynamic" the line starts with `LLVMAR qc`, then the target when there is one. It raises ValueError exactly when the target is no longer among the blanked tokens. For word tokens the line splits into `LLVMAR`'s words, "qc", the target, then the remaining tokens de-duplicated, the blanked "-o" gone |
| MpiccLink.Apply | makeadditions/transform/llvm/mpicc_link.py:25-117 | The step-by-step rule (passes, pruning loops, final assembly) gives the rule's rewrite, errors included |
| CmakeLink.ThreeFields | makeadditions/transform/llvm/cmake_link.py:23 | Three whitespace-free words, each followed by a blank, are the first three fields |
| CmakeLink.FourthField | makeadditions/transform/llvm/cmake_link.py:23 | After three such words, the fourth field is the text up to the next whitespace |
| CmakeLink.CanApply | makeadditions/transform/llvm/cmake_link.py:17-18 | A command is accepted exactly when it starts with one of the two prefixes |
| CmakeLink.PrefixShape | makeadditions/transform/llvm/cmake_link.py:14 | The literal prefixes `/usr/bin/cmake -E cmake_link_script ` and `/usr/local/bin/cmake -E cmake_link_script ` are each a cmake program, "-E" and "cmake_link_script", each followed by a blank |
| CmakeLink.ScriptName | makeadditions/transform/llvm/cmake_link.py:23 | The link script's name is field 3 of the single-whitespace split; fewer than four fields raise IndexError |
| CmakeLink.ScriptNameAfterPrefix | makeadditions/transform/llvm/cmake_link.py:14-23 | For an accepted command, the fourth field is the text after the prefix up to the first whitespace, so reading it never fails |
| Transformers.FirstOther | makeadditions/transform/llvm/cmake_link.py:28-34 | The rule chosen is listed, is not the CMake rule, and accepts the command. None only when no other listed rule accepts it |
| Transformers.ApplyOther | makeadditions/transform/llvm/cmake_link.py:32-33 | Running a non-CMake rule gives that rule's rewrite |
| Transformers.ApplyCmakeLink | makeadditions/transform/llvm/cmake_link.py:21-41 | The loop skips itself and applies the first accepting rule to the first line, in the same directory. An unreadable script or no accepting rule is an error |
| Transformers.Apply | makeadditions/transform/llvm/cmake_link.py:31-33 | Applying any rule gives its rewrite |
| Transformers.LeadingChars | makeadditions/transform/llvm/ar.py:15-20 | Each rule's acceptance fixes characters 0, 5 and 9 of the command, differently for each rule |
| Transformers.Exclusive | makeadditions/transform/llvm/cmake_link.py:28-34 | No command is accepted by two different rules |
| Transformers.FirstOtherIsAnyAccepting | makeadditions/transform/llvm/cmake_link.py:28-34 | The dispatch picks whichever listed rule accepts the line, whatever the order of the list |
| Transformers.CmakeUnreadable | makeadditions/transform/llvm/cmake_link.py:23-25 | A script that cannot be opened ends the rewrite with that error |
| Transformers.CmakeDelegates | makeadditions/transform/llvm/cmake_link.py:24-34 | When a listed rule accepts the script's first line, the result is that rule's rewrite of the line in the same directory |
| Transformers.CmakeNoRule | makeadditions/transform/llvm/cmake_link.py:36-41 | When no listed rule accepts the first line, the run ends |
| Transformers.NoNestedScripts | makeadditions/transform/llvm/cmake_link.py:28-30 | A first line that is itself a CMake link-script call is never followed: the run ends |
| Make.AddEntries | makeadditions/MakeScript.py:39-67 | Library writes keep every key, add every written key, and add no other |
| Make.AddEntriesSnoc | makeadditions/MakeScript.py:39-67 | One more pattern write overwrites one key and becomes the archive written last |
| Make.RecordLast | makeadditions/MakeScript.py:39-67 | The last pattern written wins for its key |
| Make.DepsOf | makeadditions/MakeScript.py:73-80 | The recorded dependencies are exactly the `.bc` tokens other than the artifact, never more than the tokens |
| Make.DepsOfCounts | makeadditions/MakeScript.py:73-80 | Each `.bc` token other than the artifact is recorded exactly as often as it occurs; nothing else is recorded |
| Make.DepsOfAppend | makeadditions/MakeScript.py:73-80 | The dependencies of a concatenation are those of the first part followed by those of the second |
| Make.ArShape | makeadditions/MakeScript.py:40-41 | The archive an `ar` match names is a directory part, "lib", the name and ".a" |
| Make.ArEntries | makeadditions/MakeScript.py:39-67 | For an `ar ` command only the first pattern writes |
| Make.ArRegistration | makeadditions/MakeScript.py:39-45 | An `ar` command naming `<dir>lib<name>.a` registers "lib"+name for `join(curdir, "<dir>lib<name>.a.bc")` |
| Make.BitcodeShape | makeadditions/MakeScript.py:54-57 | The path of a `.a.bc` match ends in "bc", and without its last three characters it is a directory part, "lib", the name and ".a" |
| Make.LinkEntries | makeadditions/MakeScript.py:46-67 | For an llvm-link command the entries are the archive entry of the first llvm-link pattern followed by the bitcode entry of the second, the bitcode one last |
| Make.BitcodeLinkRegistration | makeadditions/MakeScript.py:53-60 | An llvm-link writing `<dir>lib<name>.a.bc` registers that path minus its last three characters for the path joined to the directory |
| Make.RecordExtends | makeadditions/MakeScript.py:68-80 | Recording only adds keys and appends dependencies, and keeps dependencies bitcode files different from their artifact |
| Make.RegisteredExtends | makeadditions/MakeScript.py:33-80 | `register` only extends the registry and keeps its dependency table well formed |
| Make.RegisterAllExtends | makeadditions/MakeScript.py:122-128 | Registering a list of commands only extends the registry and keeps it well formed |
| Make.RegisterAllSnoc | makeadditions/MakeScript.py:122-128 | Registering one more command is one more `register` |
| Make.RegisterAllAppend | makeadditions/MakeScript.py:189-190 | Registering `a` then `b` is registering `a + b` |
| Make.TransformAllKeeps | makeadditions/MakeScript.py:87-89 | `transform` stores every command unchanged |
| Make.Lines | makeadditions/MakeScript.py:138 | One rendered line per command, in order |
| Make.ScriptLines | makeadditions/MakeScript.py:136-138 | When no command spans several lines, splitting the script at line breaks gives back the rendered commands |
| Make.Effective | makeadditions/MakeScript.py:158-161 | The commands considered are exactly those with effects |
| Make.EffectiveCounts | makeadditions/MakeScript.py:158-161 | Each command with effects is considered exactly as often as it occurs; no other command is |
| Make.EffectiveAppend | makeadditions/MakeScript.py:158-161 | The commands considered from a concatenation are those of the first part followed by those of the second |
| Make.FailureEndsRun | makeadditions/MakeScript.py:166-171 | After a failure later commands change nothing |
| Make.KeepGoingRunsAll | makeadditions/MakeScript.py:158-169 | With `keep_going` every command with effects runs, in order. The failing ones, and only those, are reported, and nothing is raised |
| Make.FailFast | makeadditions/MakeScript.py:158-171 | Without `keep_going` nothing is reported. Either every command with effects ran and succeeded, or the commands ran in order up to the first failing one, which raises |
| Make.FailFastQuiet | makeadditions/MakeScript.py:166-171 | Without `keep_going` nothing is reported |
| Make.FailFastRan | makeadditions/MakeScript.py:158-164 | Without `keep_going` the commands run are a prefix of those with effects, and all of them when none fails |
| Make.FailFastStops | makeadditions/MakeScript.py:166-171 | Without `keep_going` every command run before the last succeeded, and a raised failure is the last command run, with a non-zero code |
| Make.MakeScript.constructor | makeadditions/MakeScript.py:22-31 | A fresh container has no commands, no libraries and no dependencies |
| Make.MakeScript.Register | makeadditions/MakeScript.py:33-80 | The registry becomes the registered one: the pattern writes, then, when a pattern matched, the dependencies under the archive's basename. The commands are unchanged, and nothing changes when no pattern matches |
| Make.MakeScript.WriteLibraries | makeadditions/MakeScript.py:37-67 | The four pattern writes in order, returning the archive written last |
| Make.MakeScript.WriteEntry | makeadditions/MakeScript.py:42-45 | A match writes one key and becomes the archive written |
| Make.MakeScript.RecordDeps | makeadditions/MakeScript.py:71-80 | The dependency loop appends the `.bc` tokens other than the artifact to the artifact's list |
| Make.MakeScript.FromCommands | makeadditions/MakeScript.py:122-128 | The new container holds the parsed commands in input order, with the registry of registering them one by one |
| Make.MakeScript.ExecuteCmds | makeadditions/MakeScript.py:140-171 | The loop runs the execution policy: skip commands without effect, report or raise on a non-zero exit code |
| Make.MakeScript.AppendCmd | makeadditions/MakeScript.py:173-180 | `cmds` grows by exactly the command, and the registry is registered with it |
| Make.MakeScript.AppendCmdList | makeadditions/MakeScript.py:182-193 | Every command is registered first, then `cmds` is extended by the same commands in the same order |

## Left out

- makeadditions/config.py and the toolchain probing are not part of this
  model. `CLANG`, `LLVMLINK`, `LLVMAR`, `OPTIMIZERFLAGS` and
  `EXECFILEEXTENSION` are fields of a `Toolchain` parameter.
- Rule discovery (`transform/llvm/__init__.py` and
  `directory.list_all_llvm_transformers`) is not part of this model. The rule
  order is the `rules` sequence of the dispatch context.
- The make invocation and trace parsing in `from_makefile`
  (MakeScript.py:100-106) are process I/O. `MakeScript.FromCommands` takes
  the parsed command list.
- `cmd.execute()` and `cmd.has_effects()` are functions given to
  `ExecuteCmds`. The raised `OSError` is the `failure` of the execution
  record, and the stderr report is its `reported` list.
- The exit code and the `has_effects` outcome are functions of the command
  value. A command that occurs twice therefore gets the same exit code and
  the same outcome both times; a run whose outcome differs between two
  equal commands is not modelled.
- `filecmp.cmp` is a three-valued oracle (same, different, raised), and the
  file contents are not modelled. Opening and reading the link script is a
  function from path to first line. The line keeps its newline, as
  `readline` does.
- `Command(link_line, cmd.curdir)` in the CMake rule is assumed to store the
  line unchanged, so the newline `readline` keeps is still there when the
  delegated rule tests `endswith(".c")`. The module defining `Command` is
  not part of this model.
- The rule set is the five rules of transform/llvm named in the model
  (`Transformers.Transformer`). Transformers.Exclusive and
  Transformers.FirstOtherIsAnyAccepting are proved for these five; a rule
  added to that directory is not covered.
- `print` diagnostics are left out.
- `not cmd` in `execute_cmds` is modelled as always false. This assumes that
  the `Command` class defines neither `__bool__` nor `__len__`, so its
  objects are truthy. The module defining `Command` is not part of this model.
- The `no_duplicates` helper is not part of this model. `NoDuplicates`
  models it as first-occurrence de-duplication.
- Regular expressions are modelled only for the patterns the engine uses,
  with `re.search`'s leftmost match and greedy backtracking.
- Whitespace is the set of characters that Python's `str.isspace` accepts,
  listed in `Strings.IsSpace`. `os.linesep` is the POSIX line break "\n".
- Commands are values, so the in-place update of `cmd.bashcmd` and any
  aliasing of the command object by its callers are not modelled.
- MpiccLink.PassesSpec: does not claim that no optimizer flag survives the
  link passes. A registered archive or the renamed output can itself be
  spelled like an optimizer flag, so only the filter's own result
  (`Commands.WithoutFlags`) is stated.
- Make.ScriptLines: stated only for commands whose rendering has no line
  break. A command text with a newline produces several script lines.
