/** The Evaluate step of the REPL in `src/repl/eval.rs`: how each kind of Read
    result becomes a Print state or the exit signal, how a command's outcome
    is reported, and how a program turn appends its input to the current file,
    builds, compiles and runs it, and takes the input back out again when any
    stage fails. The build, the compile and the run are done by code outside
    this model; their outcomes arrive as parameters. The filesystem is the set
    of paths that exist. */
module ReplEval {
  import opened Wrappers
  import opened Text
  import Paths

  /** One turn's code. Only whether it holds statements matters here. */
  datatype Input = Input(items: seq<string>, stmts: seq<string>)

  /** A module of the accumulated program and the inputs accepted into it. */
  datatype SourceFile = SourceFile(modPath: seq<string>, contents: seq<Input>)

  /** What the command engine reports for a command line. `Other` stands for
      every outcome that is neither exit nor an action. */
  datatype LineResult = Exit | Action(result: CommandResult) | Other

  datatype CommandResult = CancelInput

  /** What Read produced. `Empty` and `More` stand for the variants the
      evaluation does not name and treats alike. */
  datatype InputResult =
    | Command(cmds: string)
    | Program(input: Input)
    | InputError(err: string)
    | Eof
    | Empty
    | More

  /** The signal that ends the session. */
  datatype EvalSignal = Exit

  /** The REPL's phases, each holding only what that phase needs. */
  datatype State = Read | Evaluate(result: InputResult) | Print(toPrint: string, asOut: bool)

  datatype Repl<Term(==)> = Repl(state: State, terminal: Term, data: ReplData, more: bool)

  /** The text to print, and whether it is the output of a program run. */
  type HandleInputResult = (string, bool)

  // ---------------------------------------------------------------------
  // Commands

  const CancelledInput := "cancelled input"

  /** `ReplData::handle_command`, given what the command engine made of the
      line: exit ends the session; nothing a command does is printed as
      program output, and only an action prints anything. */
  function HandleCommand(outcome: LineResult): (r: Result<HandleInputResult, EvalSignal>)
    ensures r.Err? <==> outcome.Exit?
    ensures r.Ok? ==> !r.value.1
    ensures r.Ok? ==> (r.value.0 != "" <==> outcome.Action?)
    ensures outcome.Action? && outcome.result.CancelInput? ==> r.value.0 == CancelledInput
  {
    match outcome
    case Exit => Err(EvalSignal.Exit)
    case Action(res) =>
      (match res
       case CancelInput => Ok((CancelledInput, false)))
    case Other => Ok(("", false))
  }

  // ---------------------------------------------------------------------
  // One program turn, as a value

  /** What a program turn prints, whether that is program output, and whether
      the input stays in the file. */
  datatype TurnResult = TurnResult(toPrint: string, asOut: bool, keep: bool)

  const BuildDirFailure := "failed to build compile directory: "

  predicate HasStmts(input: Input)
  {
    |input.stmts| > 0
  }

  /** The result of a program turn from the outcomes of its three stages:
      writing the compile directory (`dirBuilt`, with the error's text),
      compiling (`compiled`, the library path or the error's text) and running
      (`executed`, the printed value or the error's text). The input stays
      exactly when no stage that ran failed, and running happens only for an
      input with statements; only a successful run prints program output. */
  function TurnOutcome(hasStmts: bool, dirBuilt: Outcome<string>, compiled: Result<string, string>,
                       executed: Result<string, string>): (t: TurnResult)
    ensures t.keep <==> dirBuilt.Pass? && compiled.Ok? && (hasStmts ==> executed.Ok?)
    ensures t.asOut <==> t.keep && hasStmts
    ensures dirBuilt.Fail? ==> t.toPrint == BuildDirFailure + dirBuilt.error
    ensures dirBuilt.Pass? && compiled.Err? ==> t.toPrint == compiled.error
    ensures dirBuilt.Pass? && compiled.Ok? && !hasStmts ==> t.toPrint == ""
    ensures dirBuilt.Pass? && compiled.Ok? && hasStmts && executed.Ok? ==> t.toPrint == executed.value
    ensures dirBuilt.Pass? && compiled.Ok? && hasStmts && executed.Err? ==> t.toPrint == executed.error
  {
    if dirBuilt.Fail? then TurnResult(BuildDirFailure + dirBuilt.error, false, false)
    else if compiled.Err? then TurnResult(compiled.error, false, false)
    else if !hasStmts then TurnResult("", false, true)
    else match executed
      case Ok(s) => TurnResult(s, true, true)
      case Err(e) => TurnResult(e, false, false)
  }

  /** `Vec::pop`, keeping only the new vector: drops the last element, and
      leaves an empty vector as it is. */
  function DropLast<T>(s: seq<T>): (r: seq<T>)
    ensures s == [] ==> r == []
    ensures s != [] ==> r + [s[|s| - 1]] == s
  {
    if s == [] then [] else s[..|s| - 1]
  }

  // ---------------------------------------------------------------------
  // Versioned library names

  const LibNamePrefix := "papyrus.mem-code.lib."

  /** The `i`th library name, `papyrus.mem-code.lib.<i>`. */
  function LibName(i: nat): string
  {
    LibNamePrefix + NatToString(i)
  }

  /** The `i`th library path in `dir`. */
  function LibPath(dir: string, i: nat): string
  {
    Paths.JoinPath(dir, LibName(i))
  }

  /** The directory of the compiled library, or the empty path if it has none. */
  function LibDir(compiledLib: string): string
  {
    match Paths.Parent(compiledLib)
    case Some(dir) => dir
    case None => ""
  }

  /** Different indices name different library paths in the same directory. */
  lemma LibPathInjective(dir: string, i: nat, j: nat)
    requires LibPath(dir, i) == LibPath(dir, j)
    ensures i == j
  {
    Paths.JoinPathInjective(dir, LibName(i), LibName(j));
    assert LibName(i)[|LibNamePrefix|..] == NatToString(i);
    assert LibName(j)[|LibNamePrefix|..] == NatToString(j);
    NatToStringInjective(i, j);
  }

  /** `i` is the least index whose library path in `dir` does not exist. */
  ghost predicate IsLowestFree(existing: set<string>, dir: string, i: nat)
  {
    LibPath(dir, i) !in existing && forall j :: 0 <= j < i ==> LibPath(dir, j) in existing
  }

  /** The least free index is unique. */
  lemma LowestFreeUnique(existing: set<string>, dir: string, i: nat, k: nat)
    requires IsLowestFree(existing, dir, i) && IsLowestFree(existing, dir, k)
    ensures i == k
  {
  }

  /** The search loop of `rename_lib_file`: try `papyrus.mem-code.lib.0`,
      `.1`, ... in `dir` until one does not exist. It stops, because every
      path it passes exists and there are only finitely many. */
  method FindFreeLibPath(existing: set<string>, dir: string) returns (idx: nat, libPath: string)
    ensures libPath == LibPath(dir, idx)
    ensures libPath !in existing
    ensures forall j :: 0 <= j < idx ==> LibPath(dir, j) in existing
  {
    idx := 0;
    libPath := LibPath(dir, idx);
    ghost var passed: set<string> := {};
    while libPath in existing
      invariant libPath == LibPath(dir, idx)
      invariant forall j :: 0 <= j < idx ==> LibPath(dir, j) in existing
      invariant passed == set j | 0 <= j < idx :: LibPath(dir, j)
      invariant passed <= existing
      decreases existing - passed
    {
      forall j | 0 <= j < idx ensures LibPath(dir, j) != libPath {
        if LibPath(dir, j) == libPath { LibPathInjective(dir, j, idx); }
      }
      passed := passed + {libPath};
      idx := idx + 1;
      libPath := LibPath(dir, idx);
    }
  }

  /** One successful `rename_lib_file`, as `RenameLibFile` states it: the
      library `lib` exists and moves to the lowest free library path of its
      directory. */
  ghost predicate RenameStep(before: set<string>, lib: string, i: nat, after: set<string>)
  {
    && lib in before
    && IsLowestFree(before, LibDir(lib), i)
    && after == before - {lib} + {LibPath(LibDir(lib), i)}
  }

  /** The renames of a session, in one directory `dir`: the `k`th rename finds
      the filesystem `before[k]`, moves `libs[k]` to index `idx[k]` and leaves
      `after[k]`. Between two renames the session builds and compiles again,
      which may add files (the compiled library among them) but removes no
      library path. No compiled library is itself a library path. */
  ghost predicate SessionRenames(before: seq<set<string>>, after: seq<set<string>>, libs: seq<string>,
                                 idx: seq<nat>, dir: string)
  {
    && |before| == |libs| && |after| == |libs| && |idx| == |libs|
    && (forall k :: 0 <= k < |libs| ==> LibDir(libs[k]) == dir)
    && (forall k :: 0 <= k < |libs| ==> RenameStep(before[k], libs[k], idx[k], after[k]))
    && (forall k, i :: 0 <= k < |libs| ==> libs[k] != LibPath(dir, i))
    && (forall k, i :: 0 <= k < |libs| - 1 && LibPath(dir, i) in after[k] ==> LibPath(dir, i) in before[k + 1])
  }

  /** A library path present after one rename is still there when any later
      rename starts: renaming moves away only the compiled library, and the
      steps in between remove no library path. */
  lemma {:induction false} LibPathsPersist(before: seq<set<string>>, after: seq<set<string>>,
                                           libs: seq<string>, idx: seq<nat>, dir: string,
                                           k: nat, m: nat, j: nat)
    requires SessionRenames(before, after, libs, idx, dir)
    requires k < m < |libs| && LibPath(dir, j) in after[k]
    ensures LibPath(dir, j) in before[m]
    decreases m - k
  {
    assert LibPath(dir, j) in before[k + 1];
    if k + 1 < m {
      assert RenameStep(before[k + 1], libs[k + 1], idx[k + 1], after[k + 1]);
      assert libs[k + 1] != LibPath(dir, j);
      LibPathsPersist(before, after, libs, idx, dir, k + 1, m, j);
    }
  }

  /** Every generation of the library gets a path of its own: across the
      renames of a session, the indices strictly increase, so no two renamed
      libraries share a path. */
  lemma RenamedPathsDistinct(before: seq<set<string>>, after: seq<set<string>>, libs: seq<string>,
                             idx: seq<nat>, dir: string)
    requires SessionRenames(before, after, libs, idx, dir)
    ensures forall k, m :: 0 <= k < m < |libs| ==> idx[k] < idx[m]
    ensures forall k, m :: 0 <= k < m < |libs| ==> LibPath(dir, idx[k]) != LibPath(dir, idx[m])
  {
    forall k, m | 0 <= k < m < |libs|
      ensures idx[k] < idx[m] && LibPath(dir, idx[k]) != LibPath(dir, idx[m])
    {
      assert RenameStep(before[k], libs[k], idx[k], after[k]);
      assert RenameStep(before[m], libs[m], idx[m], after[m]);
      if idx[m] <= idx[k] {
        if idx[m] < idx[k] {
          assert LibPath(dir, idx[m]) in before[k];
          assert libs[k] != LibPath(dir, idx[m]);
        }
        assert LibPath(dir, idx[m]) in after[k];
        LibPathsPersist(before, after, libs, idx, dir, k, m, idx[m]);
        assert false;
      }
      LibPathsPersist(before, after, libs, idx, dir, k, m, idx[k]);
    }
  }

  /** Two turns of a session: the library is renamed, the next compile
      recreates it at the same path, and it is renamed again. These renames
      form a session, so the second gets a later index than the first. */
  lemma RecompileThenRename(lib: string, before0: set<string>, after0: set<string>,
                            before1: set<string>, after1: set<string>, i0: nat, i1: nat)
    requires forall i :: lib != LibPath(LibDir(lib), i)
    requires RenameStep(before0, lib, i0, after0)
    requires before1 == after0 + {lib}
    requires RenameStep(before1, lib, i1, after1)
    ensures i0 < i1 && LibPath(LibDir(lib), i0) != LibPath(LibDir(lib), i1)
  {
    var before, after, libs, idx := [before0, before1], [after0, after1], [lib, lib], [i0, i1];
    assert SessionRenames(before, after, libs, idx, LibDir(lib));
    RenamedPathsDistinct(before, after, libs, idx, LibDir(lib));
  }

  datatype IoError = NotFound

  /** The filesystem, as the set of paths that exist. */
  class FileSystem {
    var paths: set<string>

    constructor (paths: set<string>)
      ensures this.paths == paths
    {
      this.paths := paths;
    }

    /** `rename_lib_file`: move the compiled library to the lowest-numbered
        `papyrus.mem-code.lib.<i>` that does not exist in its directory.
        Renaming fails, and nothing changes, when the library does not exist. */
    method RenameLibFile(compiledLib: string) returns (r: Result<string, IoError>)
      modifies this
      ensures r.Ok? <==> compiledLib in old(paths)
      ensures r.Ok? ==> exists i :: IsLowestFree(old(paths), LibDir(compiledLib), i)
                                  && r.value == LibPath(LibDir(compiledLib), i)
      ensures r.Ok? ==> paths == old(paths) - {compiledLib} + {r.value}
      ensures r.Err? ==> paths == old(paths)
      ensures r.Ok? ==> exists i :: RenameStep(old(paths), compiledLib, i, paths)
                                  && r.value == LibPath(LibDir(compiledLib), i)
    {
      var dir := LibDir(compiledLib);
      var idx, libPath := FindFreeLibPath(paths, dir);
      if compiledLib !in paths {
        return Err(NotFound);
      }
      paths := paths - {compiledLib} + {libPath};
      r := Ok(libPath);
      assert IsLowestFree(old(paths), dir, idx);
    }
  }

  // ---------------------------------------------------------------------
  // The session's data

  class ReplData {
    /** The accumulated modules, by module path. */
    var fileMap: map<string, SourceFile>
    /** The module that program inputs go into. */
    var currentFile: string
    var compilationDir: string
    var redirectOnExecution: bool

    /** The current module is in the map (the source panics otherwise). */
    ghost predicate Valid()
      reads this
    {
      currentFile in fileMap
    }

    /** `get_current_file_mut`: the module that program inputs go into. */
    function CurrentFile(): SourceFile
      reads this
      requires Valid()
    {
      fileMap[currentFile]
    }

    /** The `pop_input` closure: pop the current module's last input. */
    method PopInput()
      requires Valid()
      modifies this
      ensures Valid()
      ensures currentFile == old(currentFile) && compilationDir == old(compilationDir)
      ensures redirectOnExecution == old(redirectOnExecution)
      ensures fileMap == old(fileMap)[currentFile := old(CurrentFile()).(contents := DropLast(old(CurrentFile().contents)))]
    {
      var file := fileMap[currentFile];
      fileMap := fileMap[currentFile := file.(contents := DropLast(file.contents))];
    }

    /** `ReplData::handle_program`: append the input to the current module,
        then build the compile directory, compile, and (only if the input has
        statements) rename the library and run it; a failing stage takes the
        input back out. Afterwards the current module holds its old inputs
        plus this one, or exactly its old inputs, as `TurnOutcome` decides, and
        no other module changes. The caller guarantees that a successfully
        compiled library exists (renaming it would panic otherwise). */
    method HandleProgram(input: Input, fs: FileSystem, dirBuilt: Outcome<string>,
                         compiled: Result<string, string>, executed: Result<string, string>)
      returns (toPrint: string, asOut: bool)
      requires Valid()
      requires dirBuilt.Pass? && compiled.Ok? && HasStmts(input) ==> compiled.value in fs.paths
      modifies this, fs
      ensures Valid()
      ensures currentFile == old(currentFile) && compilationDir == old(compilationDir)
      ensures redirectOnExecution == old(redirectOnExecution)
      ensures var t := TurnOutcome(HasStmts(input), dirBuilt, compiled, executed);
              && toPrint == t.toPrint && asOut == t.asOut
              && fileMap == old(fileMap)[currentFile :=
                   old(CurrentFile()).(contents := old(CurrentFile().contents) + if t.keep then [input] else [])]
      ensures dirBuilt.Pass? && compiled.Ok? && HasStmts(input) ==>
                exists i :: IsLowestFree(old(fs.paths), LibDir(compiled.value), i)
                         && fs.paths == old(fs.paths) - {compiled.value} + {LibPath(LibDir(compiled.value), i)}
      ensures !(dirBuilt.Pass? && compiled.Ok? && HasStmts(input)) ==> fs.paths == old(fs.paths)
    {
      var hasStmts := HasStmts(input);
      var file := fileMap[currentFile];
      fileMap := fileMap[currentFile := file.(contents := file.contents + [input])];
      assert DropLast(file.contents + [input]) == file.contents == file.contents + [];

      if dirBuilt.Fail? {
        PopInput();
        toPrint, asOut := BuildDirFailure + dirBuilt.error, false;
        return;
      }
      if compiled.Err? {
        PopInput();
        toPrint, asOut := compiled.error, false;
        return;
      }
      if hasStmts {
        var renamed := fs.RenameLibFile(compiled.value);
        assert renamed.Ok?;
        match executed {
          case Ok(s) =>
            toPrint, asOut := s, true;
          case Err(e) =>
            PopInput();
            toPrint, asOut := e, false;
        }
      } else {
        toPrint, asOut := "", false;
      }
    }
  }

  // ---------------------------------------------------------------------
  // Evaluate -> Print

  /** `map_variants`: the Evaluate state becomes a Print state with the same
      terminal, data and `more` flag, or the session ends. `command` is what
      the command engine makes of a command line; `dirBuilt`, `compiled` and
      `executed` are the stage outcomes of a program turn. */
  method MapVariants<Term(==)>(repl: Repl<Term>, fs: FileSystem, command: LineResult,
                               dirBuilt: Outcome<string>, compiled: Result<string, string>,
                               executed: Result<string, string>)
    returns (r: Result<Repl<Term>, EvalSignal>)
    requires repl.state.Evaluate?
    requires repl.data.Valid()
    requires repl.state.result.Program? && dirBuilt.Pass? && compiled.Ok? && HasStmts(repl.state.result.input)
             ==> compiled.value in fs.paths
    modifies repl.data, fs
    ensures r.Err? <==> repl.state.result.Eof? || (repl.state.result.Command? && command.Exit?)
    ensures r.Ok? ==> r.value.state.Print? && r.value.terminal == repl.terminal
                      && r.value.data == repl.data && r.value.more == repl.more
    ensures repl.state.result.Command? && r.Ok? ==>
              r.value.state == Print(HandleCommand(command).value.0, HandleCommand(command).value.1)
    ensures repl.state.result.InputError? ==> r == Ok(repl.(state := Print(repl.state.result.err, false)))
    ensures repl.state.result.Empty? || repl.state.result.More? ==> r == Ok(repl.(state := Print("", false)))
    ensures repl.state.result.Program? ==>
              var input := repl.state.result.input;
              var t := TurnOutcome(HasStmts(input), dirBuilt, compiled, executed);
              && r == Ok(repl.(state := Print(t.toPrint, t.asOut)))
              && repl.data.fileMap == old(repl.data.fileMap)[repl.data.currentFile :=
                   old(repl.data.CurrentFile()).(contents := old(repl.data.CurrentFile().contents)
                                                             + if t.keep then [input] else [])]
    ensures repl.state.result.Program? ==>
              && repl.data.currentFile == old(repl.data.currentFile)
              && repl.data.compilationDir == old(repl.data.compilationDir)
              && repl.data.redirectOnExecution == old(repl.data.redirectOnExecution)
    ensures repl.state.result.Program? && dirBuilt.Pass? && compiled.Ok? && HasStmts(repl.state.result.input) ==>
              exists i :: IsLowestFree(old(fs.paths), LibDir(compiled.value), i)
                       && fs.paths == old(fs.paths) - {compiled.value} + {LibPath(LibDir(compiled.value), i)}
    ensures !(repl.state.result.Program? && dirBuilt.Pass? && compiled.Ok? && HasStmts(repl.state.result.input))
            ==> fs.paths == old(fs.paths)
    ensures !repl.state.result.Program? ==> unchanged(repl.data) && unchanged(fs)
  {
    var handled: Result<HandleInputResult, EvalSignal>;
    match repl.state.result {
      case Command(cmds) =>
        handled := HandleCommand(command);
      case Program(input) =>
        var toPrint, asOut := repl.data.HandleProgram(input, fs, dirBuilt, compiled, executed);
        handled := Ok((toPrint, asOut));
      case InputError(err) =>
        handled := Ok((err, false));
      case Eof =>
        handled := Err(EvalSignal.Exit);
      case Empty =>
        handled := Ok(("", false));
      case More =>
        handled := Ok(("", false));
    }
    match handled {
      case Ok((toPrint, asOut)) =>
        r := Ok(Repl(Print(toPrint, asOut), repl.terminal, repl.data, repl.more));
      case Err(signal) =>
        r := Err(signal);
    }
  }

  // ---------------------------------------------------------------------
  // Many turns

  /** The outcomes of one program turn's stages. */
  datatype Turn = Turn(input: Input, dirBuilt: Outcome<string>, compiled: Result<string, string>,
                       executed: Result<string, string>)

  predicate Kept(t: Turn)
  {
    TurnOutcome(HasStmts(t.input), t.dirBuilt, t.compiled, t.executed).keep
  }

  /** The current module's inputs after a series of program turns, each
      appending its input and keeping it only if the turn succeeded. */
  function ContentsAfter(contents: seq<Input>, turns: seq<Turn>): seq<Input>
    decreases |turns|
  {
    if turns == [] then contents
    else ContentsAfter(contents + (if Kept(turns[0]) then [turns[0].input] else []), turns[1..])
  }

  /** The inputs of the successful turns, in turn order. */
  function Accepted(turns: seq<Turn>): (r: seq<Input>)
    ensures |r| <= |turns|
  {
    if turns == [] then []
    else (if Kept(turns[0]) then [turns[0].input] else []) + Accepted(turns[1..])
  }

  /** After any series of turns the module holds its earlier inputs followed
      by exactly the inputs of the successful turns, in order. */
  lemma {:induction false} ContentsAfterAppendsAccepted(contents: seq<Input>, turns: seq<Turn>)
    ensures ContentsAfter(contents, turns) == contents + Accepted(turns)
    decreases |turns|
  {
    if turns != [] {
      var step := if Kept(turns[0]) then [turns[0].input] else [];
      ContentsAfterAppendsAccepted(contents + step, turns[1..]);
    }
  }

  /** A successful turn's input joins the end of the accepted inputs. */
  lemma {:induction false} AcceptedSnoc(turns: seq<Turn>, t: Turn)
    ensures Accepted(turns + [t]) == Accepted(turns) + (if Kept(t) then [t.input] else [])
    decreases |turns|
  {
    var last := if Kept(t) then [t.input] else [];
    if turns == [] {
      assert [t][1..] == [];
    } else {
      var first := if Kept(turns[0]) then [turns[0].input] else [];
      assert (turns + [t])[0] == turns[0];
      assert (turns + [t])[1..] == turns[1..] + [t];
      AcceptedSnoc(turns[1..], t);
      calc {
        Accepted(turns + [t]);
        first + Accepted(turns[1..] + [t]);
        first + (Accepted(turns[1..]) + last);
        (first + Accepted(turns[1..])) + last;
      }
    }
  }

  /** A failed turn leaves the module exactly as the turns before it left it. */
  lemma FailedTurnLeavesNoTrace(contents: seq<Input>, turns: seq<Turn>, t: Turn)
    requires !Kept(t)
    ensures ContentsAfter(contents, turns + [t]) == ContentsAfter(contents, turns)
  {
    ContentsAfterAppendsAccepted(contents, turns + [t]);
    ContentsAfterAppendsAccepted(contents, turns);
    AcceptedSnoc(turns, t);
  }

  /** A session of four turns whose third fails to compile or run: the module
      ends up holding the first, second and fourth inputs, so the failed turn
      leaves nothing behind for the fourth to see. */
  lemma FailedTurnInSession(contents: seq<Input>, t1: Turn, t2: Turn, t3: Turn, t4: Turn)
    requires Kept(t1) && Kept(t2) && !Kept(t3) && Kept(t4)
    ensures ContentsAfter(contents, [t1, t2, t3, t4]) == contents + [t1.input, t2.input, t4.input]
  {
    var turns := [t1, t2, t3, t4];
    ContentsAfterAppendsAccepted(contents, turns);
    assert turns[1..] == [t2, t3, t4] && [t2, t3, t4][1..] == [t3, t4];
    assert [t3, t4][1..] == [t4] && [t4][1..] == [];
    assert Accepted([t4]) == [t4.input];
    assert Accepted([t3, t4]) == [t4.input];
    assert Accepted([t2, t3, t4]) == [t2.input, t4.input];
  }
}
