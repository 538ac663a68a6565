# papyrus REPL core in Dafny

papyrus is a read-eval-print loop for Rust. Rust has no interpreter, so every
turn appends the typed input to an accumulated source file, regenerates a
cargo project, compiles it, and loads and runs the freshly built library.
This project models three parts of it and proves properties about them:

- `src/compile.rs` (module `Compile`, file `compile.dfy`). It models the text
  of the generated `Cargo.toml` and `src/main.rs`, the two files of the
  compile directory, and the order in which the directory-building steps
  report their errors. It also models where `cargo` leaves the executable,
  and how the spawn outcome and the exit status decide the result of
  `Exe::compile` and `CompilingProcess::wait`.
- `src/repl/eval.rs` (module `ReplEval`, file `eval.dfy`). It models the
  Evaluate step: how each Read result becomes a Print state or the exit
  signal, and how a command's outcome is printed. A program turn appends the
  input to the current module, then builds, compiles, renames and runs it,
  and takes the input back out when a stage fails. Renaming moves the library
  to the lowest-numbered `papyrus.mem-code.lib.<i>` that does not exist yet.
  `ReplData` and the filesystem are classes whose methods update their fields.
  The renaming search is a `while` loop with invariants.
- `papyrus/src/complete/cmdr.rs` (module `CmdrComplete`, file `cmdr.dfy`).
  The command tree lists its commands and actions as dotted paths. The
  completers rewrite each path, relative to the current position, as
  space-separated words. They offer the completions that continue the typed
  line, and they find the actions that the typed line invokes.

Two support modules hold the string and path operations the three parts use:

- `Text` (`text.dfy`): Rust's `split` on a character, `join`, dropping empty
  pieces, and decimal rendering.
- `Paths` (`paths.dfy`): `Path::parent`, `Path::join` and `file_name` on
  slash-separated strings.

`Wrappers` (`wrappers.dfy`) holds `Option`, `Result` and `Outcome`.

The build, compile and execution done by the `pfh` helper module, the spawned
processes, and the command engine are not part of this model. Their outcomes
arrive as parameters: `dirBuilt`, `compiled`, `executed`, `spawned`,
`success`, `command`, and the engine's path listing.

Where the intended behaviour and the code differ, the model follows the
code:

- `handle_command` only prints `cancelled input` for the cancel action. It
  does not remove the pending input itself. Anything the action does happens
  inside the command engine, which is not part of this model.
- `candidates` matches an action as soon as the line starts with its match
  string. The comment above the filter says the name must be followed by a
  space. The model keeps the code's behaviour and records the difference
  under Findings.

## Model

| member | source | states |
|---|---|---|
| Text.Split | papyrus/src/complete/cmdr.rs:18 | `split('.')` yields at least one piece, and no piece contains the separator |
| Text.Join | src/compile.rs:192-197 | definition of `join`; characterised by Text.JoinSplit and Text.SplitJoin |
| Text.NonEmpty | papyrus/src/complete/cmdr.rs:18 | every kept piece is non-empty and drawn from the input, every non-empty piece of the input is kept, and never more than the input; order and repeats are stated by Text.NonEmptyAppend |
| Text.NonEmptyAppend | papyrus/src/complete/cmdr.rs:18 | the filter keeps order and repeats: filtering a concatenation is the concatenation of the filtered parts |
| Text.NonEmptyKeepsAll | papyrus/src/complete/cmdr.rs:18 | pieces that are all non-empty pass the filter unchanged |
| Text.JoinSplit | papyrus/src/complete/cmdr.rs:18 | joining the pieces of a split with the same separator gives back the original string |
| Text.SplitJoin | papyrus/src/complete/cmdr.rs:18-27 | splitting pieces joined by a separator they do not contain gives back the pieces |
| Text.SplitAtSep | src/compile.rs:182-199 | splitting a text at one separator splits the two sides independently |
| Text.SplitWithoutSep | src/compile.rs:182-199 | a text without the separator is a single piece |
| Text.NatToString | src/repl/eval.rs:266 | `format!("{}", i)` has at least one digit, and exactly one when `i < 10` |
| Text.NatToStringInjective | src/repl/eval.rs:266 | different indices render as different strings |
| Paths.Parent | src/repl/eval.rs:265 | definition of `Path::parent`; characterised by Paths.ParentAfterSlash and Paths.JoinPathParent |
| Paths.JoinPath | src/repl/eval.rs:267 | definition of `Path::join` of a relative name; characterised by Paths.JoinPathParent and Paths.JoinPathInjective |
| Paths.FileName | src/repl/eval.rs:265-267 | the final component contains no `/` and is a suffix of the path |
| Paths.FileNameAfterSlash | src/repl/eval.rs:265-267 | the final component of `dir/name` is `name` |
| Paths.ParentAfterSlash | src/repl/eval.rs:265 | the parent of `prefix/name` is `prefix`, or the root when `prefix` is empty |
| Paths.JoinPathParent | src/repl/eval.rs:265-267 | joining a plain name onto a directory and taking the parent gives the directory back, and the file name gives the name back |
| Paths.JoinPathInjective | src/repl/eval.rs:267 | names joined onto the same directory give equal paths only when the names are equal |
| Compile.InitialisingErrorText | src/compile.rs:38-47 | an I/O error prints as `io error occurred. ` followed by its message, which can be read back; a missing cargo prints the fixed message; the prefix appears exactly for I/O errors |
| Compile.ErrorTextsDistinguish | src/compile.rs:38-55 | two initialising errors with the same printed text are the same error |
| Compile.DependencyLine | src/compile.rs:195 | definition of one dependency line; characterised by Compile.DependencyLines and Compile.DependencyLineSingle |
| Compile.DependencyLines | src/compile.rs:192-197 | one `<name> = "*"` line per crate, in crate order |
| Compile.ManifestHeader | src/compile.rs:184-188 | definition of the manifest's fixed header lines; characterised by Compile.HeaderSingleLines and Compile.ManifestLines |
| Compile.HeaderSingleLines | src/compile.rs:183-188 | every fixed header line of the manifest is a single line when the file name is |
| Compile.CargoTomlContents | src/compile.rs:182-199 | definition of the `Cargo.toml` text; characterised by Compile.ManifestLines |
| Compile.ManifestLines | src/compile.rs:182-199 | read line by line, `Cargo.toml` is the five header lines naming the package, then exactly one dependency line per crate in order (or one empty line), then a final empty line |
| Compile.BlockLines | src/compile.rs:197 | a block of single lines joined by line breaks splits back into those lines, and an empty block is one empty line |
| Compile.LinesBeforeSplit | src/compile.rs:183-190 | lines put in front of a text, each ended by a line break, come back first when the whole is split into lines |
| Compile.LineThenText | src/compile.rs:183-190 | a single line and a line break in front of a text come back as the first line |
| Compile.DependencyLineSingle | src/compile.rs:195 | a dependency line is a single line when the crate name is |
| Compile.UseLines | src/compile.rs:208-213 | the crates' source lines, one per crate, in crate order |
| Compile.WrapInMain | src/compile.rs:216-221 | definition of the `fn main()` wrapper; characterised by Compile.WrapUnwrap |
| Compile.WrapUnwrap | src/compile.rs:216-221 | the synthesised `fn main() {` wrapper is removed exactly: wrapping then unwrapping gives the script back, and a text that unwraps to a body is that body wrapped |
| Compile.ProgramText | src/compile.rs:214-222 | an `Rs` source appears verbatim; an `Rscript` source appears wrapped in a `fn main()` that unwraps to it |
| Compile.MainContents | src/compile.rs:201-224 | definition of the `main.rs` text; characterised by Compile.MainLines |
| Compile.MainLayout | src/compile.rs:202-207 | read line by line, the `main.rs` template is an empty line, the crate block's lines, an empty line, the program's lines and a final empty line |
| Compile.MainLines | src/compile.rs:201-224 | read line by line, `main.rs` is an empty line, every crate's source line in crate order (or one empty line), an empty line, the program's lines and a final empty line |
| Compile.CompileDirFiles | src/compile.rs:150-155 | the compile directory receives exactly two distinct files, `src/main.rs` and `Cargo.toml`, holding the generated texts |
| Compile.BuildCompileDir | src/compile.rs:145-165 | the directory is built exactly when all four steps succeed; otherwise the first failing step decides the error, always an I/O error, and a failed write names its file |
| Compile.BuildFailureText | src/compile.rs:156-163 | the printed error of a failed write is `io error occurred. failed writing contents of <file>` for the file that failed |
| Compile.ExePath | src/compile.rs:66-73 | definition of the executable's path; characterised by Compile.ExePathComponents |
| Compile.ExePathComponents | src/compile.rs:66-73 | the executable sits directly in `<dir>/target/debug`, named after the source file, with `.exe` only on Windows |
| Compile.Compile | src/compile.rs:59-88 | compiling succeeds exactly when the directory was built and cargo started; a directory failure is passed on unchanged; a failed spawn is `NoBuildCommand`; on success the expected executable path is recorded |
| Compile.Wait | src/compile.rs:128-134 | waiting yields the expected executable, unchanged, exactly when cargo exited successfully, and `CompileError` otherwise |
| Compile.CompiledExeLocation | src/compile.rs:59-134 | a successful compile and wait yields an executable under the compile directory's `target/debug` |
| ReplEval.HandleCommand | src/repl/eval.rs:127-147 | the session ends exactly when the engine reports exit; nothing a command produces counts as program output; text is printed exactly for an action, and the cancel action prints `cancelled input` |
| ReplEval.HasStmts | src/repl/eval.rs:159 | definition of `has_stmts`; its effect is stated by ReplEval.TurnOutcome |
| ReplEval.TurnOutcome | src/repl/eval.rs:159-238 | the input stays exactly when every stage that ran succeeded (execution only runs for inputs with statements); the result counts as program output exactly when the input stays and was run; the printed text per failing stage |
| ReplEval.LibName | src/repl/eval.rs:266 | definition of `papyrus.mem-code.lib.<i>`; characterised by ReplEval.LibPathInjective |
| ReplEval.LibPath | src/repl/eval.rs:266-267 | definition of the `i`th library path in a directory; characterised by ReplEval.LibPathInjective |
| ReplEval.LibDir | src/repl/eval.rs:263-265 | definition of the compiled library's parent, or the empty path; characterised by Paths.ParentAfterSlash |
| ReplEval.LibPathInjective | src/repl/eval.rs:266-267 | different indices give different library paths in the same directory |
| ReplEval.LowestFreeUnique | src/repl/eval.rs:264-271 | the lowest free library index is unique |
| ReplEval.FindFreeLibPath | src/repl/eval.rs:264-271 | the search stops, at an index whose library path does not exist and below which every library path exists |
| ReplEval.LibPathsPersist | src/repl/eval.rs:262-274 | in a session, a library path present after one rename is still there when any later rename starts, since renaming moves away only the compiled library and the build and compile in between remove no library path |
| ReplEval.RenamedPathsDistinct | src/repl/eval.rs:258-274 | across the successful renames of a session in one directory, with the library recompiled in between, the chosen indices strictly increase, so every generation of the library gets a path of its own |
| ReplEval.RecompileThenRename | src/repl/eval.rs:149-274 | two turns that each compile the library at the same path and rename it form a session, and the second rename picks a later index and another path |
| ReplEval.FileSystem.RenameLibFile | src/repl/eval.rs:262-274 | the rename succeeds exactly when the library exists; the library then moves to the lowest free `papyrus.mem-code.lib.<i>` in its directory and nothing else changes (one `RenameStep`); on failure nothing changes |
| ReplEval.DropLast | src/repl/eval.rs:156 | `Vec::pop` on the inputs: the result followed by the last input is the old sequence, and an empty sequence stays empty |
| ReplEval.ReplData.PopInput | src/repl/eval.rs:155-157 | the current module loses its last input (an empty module stays empty); no other module and no other field changes |
| ReplEval.ReplData.HandleProgram | src/repl/eval.rs:149-239 | the printed text and the output flag are those of `TurnOutcome`; the current module ends with its old inputs plus this one exactly when the turn succeeded, and with its old inputs otherwise; no other module changes; the library is renamed exactly when execution is reached |
| ReplEval.MapVariants | src/repl/eval.rs:93-124 | the session ends exactly on end of input or an exit command; otherwise Evaluate becomes Print with the same terminal, data and `more` flag; input errors print their text, and other non-program inputs print nothing; a program turn prints what `TurnOutcome` decides, updates the current module accordingly, keeps the current path, compile directory and redirect flag, and renames the library exactly when execution is reached; other turns change none of the modelled fields of the data and leave the filesystem alone |
| ReplEval.ContentsAfterAppendsAccepted | src/repl/eval.rs:149-239 | after any series of program turns, the module holds its earlier inputs followed by exactly the inputs of the successful turns, in order |
| ReplEval.AcceptedSnoc | src/repl/eval.rs:149-239 | a new turn adds its input to the end of the accepted inputs when it succeeds, and adds nothing otherwise |
| ReplEval.FailedTurnLeavesNoTrace | src/repl/eval.rs:172-194 | a failed turn leaves the module exactly as the earlier turns left it |
| ReplEval.FailedTurnInSession | src/repl/eval.rs:149-239 | in a session of four turns where the third fails, the module ends with the first, second and fourth inputs |
| CmdrComplete.RootPrefix | papyrus/src/complete/cmdr.rs:12 | definition of the root marker; characterised by CmdrComplete.RewriteRootMarker |
| CmdrComplete.PushSegment | papyrus/src/complete/cmdr.rs:20-26 | definition of one step of the fold; characterised by CmdrComplete.FoldJoins |
| CmdrComplete.FoldSegments | papyrus/src/complete/cmdr.rs:18-27 | definition of the fold over the segments; characterised by CmdrComplete.FoldJoins |
| CmdrComplete.Segments | papyrus/src/complete/cmdr.rs:18 | the segments below the current path are non-empty and contain no dot |
| CmdrComplete.FoldJoins | papyrus/src/complete/cmdr.rs:18-27 | folding segments onto the prefix puts exactly one space between segments and none after the prefix |
| CmdrComplete.Rewrite | papyrus/src/complete/cmdr.rs:17-28 | a completion is the root marker followed by the path's segments below the current path, joined by single spaces |
| CmdrComplete.RewriteRootMarker | papyrus/src/complete/cmdr.rs:12 | a completion starts with `.` exactly when it is made at the root |
| CmdrComplete.RewriteWords | papyrus/src/complete/cmdr.rs:18-27 | splitting a completion at its spaces gives back exactly the path's segments |
| CmdrComplete.Build | papyrus/src/complete/cmdr.rs:9-34 | one completion per path, in path order |
| CmdrComplete.BuildRootMarker | papyrus/src/complete/cmdr.rs:12-29 | every built completion starts with `.` exactly when at the root |
| CmdrComplete.Complete | papyrus/src/complete/cmdr.rs:38-56 | there are never more completions than elements, and each continues the typed line from `start` |
| CmdrComplete.CompleteMembers | papyrus/src/complete/cmdr.rs:49-55 | the completions are exactly the elements that start with the typed line, each taken from `start` |
| CmdrComplete.CompleteAppend | papyrus/src/complete/cmdr.rs:49-55 | completions keep the order of the elements |
| CmdrComplete.MakeAction | papyrus/src/complete/cmdr.rs:75-93 | definition of one action match; characterised by CmdrComplete.Rewrite and CmdrComplete.QualifiedPath |
| CmdrComplete.QualifiedPath | papyrus/src/complete/cmdr.rs:87 | putting `root.` back in front of the qualified path gives the path again |
| CmdrComplete.IsAction | papyrus/src/complete/cmdr.rs:74 | definition of `x.contains("..")`; its use is stated by CmdrComplete.BuildActionsMembers |
| CmdrComplete.BuildActions | papyrus/src/complete/cmdr.rs:64-97 | never more action matches than paths |
| CmdrComplete.BuildActionsMembers | papyrus/src/complete/cmdr.rs:71-94 | the action matches are exactly those of the paths containing `..` |
| CmdrComplete.BuildActionsAppend | papyrus/src/complete/cmdr.rs:71-94 | action matches keep the order of the paths |
| CmdrComplete.MakeCandidate | papyrus/src/complete/cmdr.rs:116-124 | a candidate carries the action's qualified path, the word and its start unchanged; its line is a non-empty tail of the typed line, namely the text after the match string and one more character when the line is long enough, and otherwise the last character |
| CmdrComplete.Candidates | papyrus/src/complete/cmdr.rs:112-125 | never more candidates than actions, and each carries the given word and start |
| CmdrComplete.CandidatesMembers | papyrus/src/complete/cmdr.rs:112-125 | the candidates are exactly those of the actions whose match string the line starts with |
| CmdrComplete.CandidatesAppend | papyrus/src/complete/cmdr.rs:112-125 | candidates keep the order of the actions |
| CmdrComplete.ShorterActionAlsoMatches | papyrus/src/complete/cmdr.rs:112-115 | with actions `foo` and `foobar`, the line `foobar ` yields a candidate for `foo` first and then one for `foobar` |
| CmdrComplete.CandidatesDelimited | papyrus/src/complete/cmdr.rs:105-110 | the intended filter: never more candidates than actions, each with the given word and start |
| CmdrComplete.CandidatesDelimitedMembers | papyrus/src/complete/cmdr.rs:105-115 | with the delimiter, the candidates are exactly those of the actions whose match string followed by a space begins the line |
| CmdrComplete.DelimiterRejectsExtension | papyrus/src/complete/cmdr.rs:105-110 | a match string followed by a space does not begin a line that continues it with anything but a space |
| CmdrComplete.DelimitedMatchIsUnambiguous | papyrus/src/complete/cmdr.rs:105-110 | with the delimiter, when the line types a longer action name, no candidate comes from an action whose match string the longer name extends with anything but a space |
| CmdrComplete.DelimitedExample | papyrus/src/complete/cmdr.rs:105-109 | with the delimiter and actions `foo` and `foobar`: `foo ` picks only `foo`, `foob` picks nothing, `foobar ` picks only `foobar` |

## Left out

- Spawning `cargo` and the compiled executable (`Exe::run`), the `Process` handles, stdout and stderr, and `cargo fmt`. These are external processes. Their outcomes are parameters (`spawned`, `success`), and `fmt`'s result is ignored by the source.
- `create_file_and_dir` and the file writes. Their outcomes, and a failed creation's message, are parameters of `BuildCompileDir`.
- The `pfh::compile` build, compile and execution used by `handle_program`, with its linking configuration, `app_data`, the choice between `exec` and `exec_and_redirect`, and the streamed compiler progress. `pfh::compile` is not part of this model. Their outcomes are the parameters `dirBuilt`, `compiled` and `executed`.
- The command engine's `parse_line` and its writes to the terminal. Its result is the parameter `command`. The engine's own state (the command tree and its current position, which a command can move) is not a field of the modelled `ReplData`, so what a command does to it is not modelled. Its path listing, current path, root name and root flag are parameters of the completers.
- Asynchronous evaluation, threads, the handoff channel and the lock around shared data. This is concurrency. Each turn is modelled as one synchronous call.
- The typestate markers (`PhantomData`) of `Repl`. Dafny's `State` datatype carries the phase instead.
- Rust path normalisation (`.`, `..`, repeated or Windows separators), and `exists()` following symbolic links. The filesystem is the set of paths that exist.
- Strings are sequences of characters. Rust's byte indexing and char-boundary panics are not modelled; the texts involved are ASCII.
- `Complete` does not take the `word` and `end` arguments, because the source does not use them.
- `candidates` returns a lazy iterator in the source. The model returns the whole sequence, in the same order.
- ReplEval.FindFreeLibPath: the index is unbounded, while the source's `u64` counter would overflow after 2^64 existing libraries, as its own comment acknowledges.
- ReplEval.FileSystem.RenameLibFile: models only the missing-source failure of `std::fs::rename`; permission and other I/O failures are not modelled.
- ReplEval.ReplData.HandleProgram: requires that a successfully compiled library exists when execution is reached, because the source panics (`expect`) when renaming fails.
- ReplEval.ReplData.PopInput: requires the current module to be in the map (`Valid`), because `get_current_file_mut` panics otherwise; the same holds for `HandleProgram` and `MapVariants`.
- ReplEval.MapVariants: for a command turn, `unchanged(repl.data)` covers only the modelled fields; the command engine can move its own position in the command tree, which is not modelled.
- CmdrComplete.Candidates: requires a non-empty line, or no empty match string, because otherwise `line.len() - 1` underflows and the slice panics in the source.

## Findings

| source | as written | input that shows it | evidently intended | confidence | as-written member | corrected member |
|---|---|---|---|---|---|---|
| papyrus/src/complete/cmdr.rs:112-115 | an action matches whenever the line starts with its match string, with no check for the space that should follow the name | actions `foo` and `foobar`, line `foobar `: both match, and `foo` comes first | an action matches only when its match string is followed by a space, as the comment at lines 105-110 says, so `foo` does not match `foobar ` | high that the filter lacks the delimiter; not executed | CmdrComplete.ShorterActionAlsoMatches | CmdrComplete.DelimitedMatchIsUnambiguous |
