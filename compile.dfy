/** The build-directory contents and the compile step of `src/compile.rs`:
    the text of `Cargo.toml` and `src/main.rs` generated from a source file,
    the path where `cargo` leaves the executable, and how the outcome of the
    build-directory writes, of the spawn and of the exit status decide the
    result. Writing files and running processes are left to the caller: their
    outcomes arrive as parameters. */
module Compile {
  import opened Wrappers
  import opened Text
  import Paths

  /** `Rs` sources define their own `main`; `Rscript` sources are wrapped in one. */
  datatype SourceFileType = Rs | Rscript

  /** A crate the source depends on: its name in the manifest and the line
      (an `extern crate` declaration) that goes at the top of `main.rs`. */
  datatype CrateDependency = CrateDependency(cargoName: string, srcLine: string)

  datatype SourceFile = SourceFile(
    src: string,
    fileType: SourceFileType,
    fileName: string,
    crates: seq<CrateDependency>)

  datatype InitialisingError = NoBuildCommand | IOError(message: string)

  datatype CompileError = CompileError

  /** The compiled executable, by path. */
  datatype Exe = Exe(path: string)

  /** A running `cargo` process and the executable it is expected to produce.
      The process handle itself is not modelled; its exit status is passed to
      `Wait`. */
  datatype CompilingProcess = CompilingProcess(exe: Exe)

  // The two fixed messages below begin with a short literal of their own: the
  // verifier reads single characters of a short literal but not of a long one,
  // and `ErrorTextsDistinguish` tells the messages apart by those characters.
  const NoBuildCommandText := "cargo" + " build command failed to start, is rust installed?"
  const IOErrorPrefix := "io error occurred. "
  const CompileErrorText := "compilation" + " failed"

  /** The `Display` text of an initialising error. An I/O error's text is the
      fixed prefix followed by the underlying message, which can be read back. */
  function InitialisingErrorText(e: InitialisingError): (r: string)
    ensures IOErrorPrefix <= r <==> e.IOError?
    ensures e.IOError? ==> r[|IOErrorPrefix|..] == e.message
    ensures e.NoBuildCommand? ==> r == NoBuildCommandText
  {
    match e
    case NoBuildCommand =>
      assert NoBuildCommandText[0] != IOErrorPrefix[0];
      NoBuildCommandText
    case IOError(message) => IOErrorPrefix + message
  }

  /** The three kinds of failure print differently, so a message tells which
      error it came from (and, for an I/O error, which message). */
  lemma ErrorTextsDistinguish(a: InitialisingError, b: InitialisingError)
    ensures InitialisingErrorText(a) == InitialisingErrorText(b) ==> a == b
    ensures InitialisingErrorText(a) != CompileErrorText
  {
    var ta, tb := InitialisingErrorText(a), InitialisingErrorText(b);
    if a.IOError? {
      assert ta[0] == IOErrorPrefix[0] == 'i' != CompileErrorText[0];
    } else {
      assert ta == NoBuildCommandText;
      assert ta[1] == 'a' != CompileErrorText[1];
    }
  }

  // ---------------------------------------------------------------------
  // Cargo.toml

  /** The manifest line for one dependency: any version of the crate. */
  function DependencyLine(c: CrateDependency): string
  {
    c.cargoName + " = \"*\""
  }

  /** One manifest line per crate, in crate order. */
  function DependencyLines(crates: seq<CrateDependency>): (r: seq<string>)
    ensures |r| == |crates|
    ensures forall i :: 0 <= i < |crates| ==> r[i] == DependencyLine(crates[i])
  {
    if crates == [] then [] else [DependencyLine(crates[0])] + DependencyLines(crates[1..])
  }

  /** The fixed lines that open the manifest, naming the package. */
  function ManifestHeader(fileName: string): seq<string>
  {
    ["[package]", "name = \"" + fileName + "\"", "version = \"0.1.0\"", "", "[dependencies]"]
  }

  /** The text of `Cargo.toml`: the header lines, each ended by a line
      break, then the dependency lines joined by line breaks and a final
      line break. */
  function CargoTomlContents(source: SourceFile): string
  {
    LinesBefore(ManifestHeader(source.fileName), Join(DependencyLines(source.crates), "\n") + "\n")
  }

  predicate NoNewline(s: string)
  {
    '\n' !in s
  }

  /** Split into lines, the joined block of `parts` gives the parts back; an
      empty block is one empty line. */
  lemma BlockLines(parts: seq<string>)
    requires forall i :: 0 <= i < |parts| ==> NoNewline(parts[i])
    ensures Split(Join(parts, "\n"), '\n') == if parts == [] then [""] else parts
  {
    if parts != [] {
      SplitJoin(parts, '\n');
    }
  }

  /** Read line by line, the manifest names the package exactly `fileName`
      and then lists one `<name> = "*"` line per crate, in crate order. */
  lemma ManifestLines(source: SourceFile)
    requires NoNewline(source.fileName)
    requires forall i :: 0 <= i < |source.crates| ==> NoNewline(source.crates[i].cargoName)
    ensures Split(CargoTomlContents(source), '\n')
         == ManifestHeader(source.fileName)
            + (if source.crates == [] then [""] else DependencyLines(source.crates))
            + [""]
  {
    var lines := DependencyLines(source.crates);
    forall i | 0 <= i < |lines| ensures NoNewline(lines[i]) {
      DependencyLineSingle(source.crates[i]);
    }
    BlockLines(lines);
    assert lines == [] <==> source.crates == [];
    var deps := Join(lines, "\n");
    var header := ManifestHeader(source.fileName);
    HeaderSingleLines(source.fileName);
    LinesBeforeSplit(header, deps + "\n");
    assert deps + "\n" == deps + ['\n'] + "";
    SplitAtSep(deps, "", '\n');
  }

  /** Every header line is a single line when the file name is. */
  lemma HeaderSingleLines(fileName: string)
    requires NoNewline(fileName)
    ensures forall i :: 0 <= i < |ManifestHeader(fileName)| ==> NoNewline(ManifestHeader(fileName)[i])
  {
    var quote := "\"";
    var name := "name = " + quote + fileName + quote;
    assert NoNewline("name = ") && NoNewline(quote);
    assert NoNewline(name);
    assert NoNewline("[package]") && NoNewline("version = \"0.1.0\"") && NoNewline("[dependencies]");
  }

  /** `lines`, each followed by a line break, in front of `rest`. */
  function LinesBefore(lines: seq<string>, rest: string): string
  {
    if lines == [] then rest else lines[0] + "\n" + LinesBefore(lines[1..], rest)
  }

  /** Split into lines, single lines put in front of a text come back first. */
  lemma {:induction false} LinesBeforeSplit(lines: seq<string>, rest: string)
    requires forall i :: 0 <= i < |lines| ==> NoNewline(lines[i])
    ensures Split(LinesBefore(lines, rest), '\n') == lines + Split(rest, '\n')
  {
    if lines != [] {
      var first, more := lines[0], lines[1..];
      LinesBeforeSplit(more, rest);
      LineThenText(first, LinesBefore(more, rest));
      assert lines == [first] + more;
    }
  }

  /** Split into lines, a single line and a line break put in front of a text
      come back as the first line. */
  lemma LineThenText(line: string, text: string)
    requires NoNewline(line)
    ensures Split(line + "\n" + text, '\n') == [line] + Split(text, '\n')
  {
    SplitWithoutSep(line, '\n');
    SplitAtSep(line, text, '\n');
  }

  /** A dependency line is one line when the crate name is. */
  lemma DependencyLineSingle(c: CrateDependency)
    requires NoNewline(c.cargoName)
    ensures NoNewline(DependencyLine(c))
  {
    var tail := " = \"*\"";
    assert NoNewline(tail);
    assert DependencyLine(c) == c.cargoName + tail;
  }

  // ---------------------------------------------------------------------
  // src/main.rs

  /** The crates' source lines, in crate order. */
  function UseLines(crates: seq<CrateDependency>): (r: seq<string>)
    ensures |r| == |crates|
    ensures forall i :: 0 <= i < |crates| ==> r[i] == crates[i].srcLine
  {
    if crates == [] then [] else [crates[0].srcLine] + UseLines(crates[1..])
  }

  const MainOpen := "fn main() {\n\t"
  const MainClose := "\n}"

  /** The synthesised `fn main()` around script code. */
  function WrapInMain(src: string): string
  {
    MainOpen + src + MainClose
  }

  /** Takes the body back out of a synthesised `fn main()`, if the text is one. */
  function UnwrapMain(text: string): Option<string>
  {
    if |text| >= |MainOpen| + |MainClose|
       && text[..|MainOpen|] == MainOpen
       && text[|text| - |MainClose|..] == MainClose
    then Some(text[|MainOpen|..|text| - |MainClose|])
    else None
  }

  /** Wrapping and unwrapping are inverse: a script wrapped in `fn main()`
      unwraps to itself, and whatever unwraps to a body is that body wrapped. */
  lemma WrapUnwrap(src: string, text: string)
    ensures UnwrapMain(WrapInMain(src)) == Some(src)
    ensures UnwrapMain(text) == Some(src) ==> WrapInMain(src) == text
  {
    var w := WrapInMain(src);
    assert w[..|MainOpen|] == MainOpen;
    assert w[|w| - |MainClose|..] == MainClose;
    assert w[|MainOpen|..|w| - |MainClose|] == src;
    if UnwrapMain(text) == Some(src) {
      assert text == text[..|MainOpen|] + text[|MainOpen|..|text| - |MainClose|] + text[|text| - |MainClose|..];
    }
  }

  /** The program part of `main.rs`: the source verbatim for `Rs`, wrapped in
      a synthesised `fn main()` for `Rscript`. */
  function ProgramText(source: SourceFile): (r: string)
    ensures source.fileType.Rs? ==> r == source.src
    ensures source.fileType.Rscript? ==> UnwrapMain(r) == Some(source.src)
  {
    match source.fileType
    case Rs => source.src
    case Rscript => WrapUnwrap(source.src, ""); WrapInMain(source.src)
  }

  /** The text of `src/main.rs`. */
  function MainContents(source: SourceFile): string
  {
    "\n" + Join(UseLines(source.crates), "\n") + "\n\n" + ProgramText(source) + "\n"
  }

  /** Read line by line, `main.rs` is an empty line, every crate's source
      line in crate order, an empty line, then the lines of the program and a
      final empty line. */
  lemma MainLines(source: SourceFile)
    requires forall i :: 0 <= i < |source.crates| ==> NoNewline(source.crates[i].srcLine)
    ensures Split(MainContents(source), '\n')
         == [""]
            + (if source.crates == [] then [""] else UseLines(source.crates))
            + [""]
            + Split(ProgramText(source), '\n')
            + [""]
  {
    var uses := UseLines(source.crates);
    BlockLines(uses);
    MainLayout(Join(uses, "\n"), ProgramText(source));
  }

  /** Split into lines, the `main.rs` layout around a block and a program. */
  lemma MainLayout(block: string, program: string)
    ensures Split("\n" + block + "\n\n" + program + "\n", '\n')
         == [""] + Split(block, '\n') + [""] + Split(program, '\n') + [""]
  {
    var nl := ['\n'];
    var t2 := program + nl + "";
    var t1 := "" + nl + t2;
    var t0 := block + nl + t1;
    assert "\n\n" == nl + nl;
    assert "\n" + block + "\n\n" + program + "\n" == "" + nl + t0;
    SplitAtSep(program, "", '\n');
    assert Split(t2, '\n') == Split(program, '\n') + [""];
    SplitAtSep("", t2, '\n');
    assert Split(t1, '\n') == [""] + Split(t2, '\n');
    SplitAtSep(block, t1, '\n');
    SplitAtSep("", t0, '\n');
    assert Split("" + nl + t0, '\n') == [""] + Split(block, '\n') + Split(t1, '\n');
  }

  // ---------------------------------------------------------------------
  // The compile directory

  const MainRsPath := "src/main.rs"
  const CargoTomlPath := "Cargo.toml"

  /** What `build_compile_dir` writes: exactly two files in the compile
      directory, `src/main.rs` and `Cargo.toml`, holding the generated texts. */
  function CompileDirFiles(source: SourceFile, compileDir: string): (files: map<string, string>)
    ensures |files| == 2
    ensures Paths.JoinPath(compileDir, MainRsPath) in files
    ensures files[Paths.JoinPath(compileDir, MainRsPath)] == MainContents(source)
    ensures Paths.JoinPath(compileDir, CargoTomlPath) in files
    ensures files[Paths.JoinPath(compileDir, CargoTomlPath)] == CargoTomlContents(source)
  {
    var main, cargo := Paths.JoinPath(compileDir, MainRsPath), Paths.JoinPath(compileDir, CargoTomlPath);
    assert main != cargo by {
      if main == cargo {
        Paths.JoinPathInjective(compileDir, MainRsPath, CargoTomlPath);
      }
    }
    map[main := MainContents(source), cargo := CargoTomlContents(source)]
  }

  const WriteMainFailure := "failed writing contents of main.rs"
  const WriteCargoFailure := "failed writing contents of Cargo.toml"

  /** `build_compile_dir`: create `src/main.rs` and `Cargo.toml` (with their
      directories), then write `main.rs` and then `Cargo.toml`. Each step's
      outcome is given, a failed creation with its message; the first step
      that fails decides the error, always an I/O error, and the directory is
      built only when every step succeeds. A failed write reports which file
      it was writing. */
  function BuildCompileDir(createMain: Outcome<string>, createCargo: Outcome<string>,
                           mainWritten: bool, cargoWritten: bool): (r: Outcome<InitialisingError>)
    ensures r.Pass? <==> createMain.Pass? && createCargo.Pass? && mainWritten && cargoWritten
    ensures r.Fail? ==> r.error.IOError?
    ensures createMain.Fail? ==> r.error.message == createMain.error
    ensures createMain.Pass? && createCargo.Fail? ==> r.error.message == createCargo.error
    ensures createMain.Pass? && createCargo.Pass? && !mainWritten ==> r.error.message == WriteMainFailure
    ensures createMain.Pass? && createCargo.Pass? && mainWritten && !cargoWritten
            ==> r.error.message == WriteCargoFailure
  {
    if createMain.Fail? then Fail(IOError(createMain.error))
    else if createCargo.Fail? then Fail(IOError(createCargo.error))
    else if !mainWritten then Fail(IOError(WriteMainFailure))
    else if !cargoWritten then Fail(IOError(WriteCargoFailure))
    else Pass
  }

  /** The printed text of a failed directory build names the file whose write
      failed. */
  lemma BuildFailureText(createMain: Outcome<string>, createCargo: Outcome<string>,
                         mainWritten: bool, cargoWritten: bool)
    requires createMain.Pass? && createCargo.Pass? && !(mainWritten && cargoWritten)
    ensures var r := BuildCompileDir(createMain, createCargo, mainWritten, cargoWritten);
            r.Fail? && InitialisingErrorText(r.error)
                       == IOErrorPrefix + (if mainWritten then WriteCargoFailure else WriteMainFailure)
  {
  }

  // ---------------------------------------------------------------------
  // Compiling

  /** Where `cargo` leaves the executable: `<dir>/target/debug/<file name>`,
      with `.exe` appended when building on Windows. */
  function ExePath(compileDir: string, fileName: string, windows: bool): string
  {
    var path := compileDir + "/target/debug/" + fileName;
    if windows then path + ".exe" else path
  }

  /** The executable sits directly in `<dir>/target/debug`, named after the
      file, with `.exe` on Windows and no extension elsewhere. */
  lemma ExePathComponents(compileDir: string, fileName: string, windows: bool)
    requires fileName != "" && '/' !in fileName
    ensures Paths.Parent(ExePath(compileDir, fileName, windows)) == Some(compileDir + "/target/debug")
    ensures Paths.FileName(ExePath(compileDir, fileName, windows))
         == if windows then fileName + ".exe" else fileName
  {
    var name := if windows then fileName + ".exe" else fileName;
    var dir := compileDir + "/target/debug";
    assert ExePath(compileDir, fileName, windows) == dir + "/" + name;
    assert '/' !in name by {
      if windows { assert '/' !in ".exe"; }
    }
    Paths.FileNameAfterSlash(dir, name);
    Paths.ParentAfterSlash(dir, name);
  }

  /** `Exe::compile`: write the build directory, then spawn `cargo rustc`.
      `built` is the outcome of `BuildCompileDir` and `spawned` whether the
      `cargo` process started. The best-effort `cargo fmt` in between cannot
      change the result. */
  function Compile(source: SourceFile, compileDir: string, built: Outcome<InitialisingError>,
                   spawned: bool, windows: bool): (r: Result<CompilingProcess, InitialisingError>)
    ensures r.Ok? <==> built.Pass? && spawned
    ensures built.Fail? ==> r == Err(built.error)
    ensures built.Pass? && !spawned ==> r == Err(NoBuildCommand)
    ensures r.Ok? ==> r.value.exe.path == ExePath(compileDir, source.fileName, windows)
  {
    match built
    case Fail(e) => Err(e)
    case Pass =>
      var exe := ExePath(compileDir, source.fileName, windows);
      if spawned then Ok(CompilingProcess(Exe(exe))) else Err(NoBuildCommand)
  }

  /** `CompilingProcess::wait`: the expected executable, unchanged, if and
      only if `cargo` exited successfully. */
  function Wait(process: CompilingProcess, success: bool): (r: Result<Exe, CompileError>)
    ensures r.Ok? <==> success
    ensures r.Ok? ==> r.value == process.exe
  {
    if success then Ok(process.exe) else Err(CompileError)
  }

  /** A successful compile and wait yields the executable under the compile
      directory's `target/debug`, named after the source file. */
  lemma CompiledExeLocation(source: SourceFile, compileDir: string, windows: bool)
    requires source.fileName != "" && '/' !in source.fileName
    ensures var r := Compile(source, compileDir, Pass, true, windows);
            r.Ok? && Wait(r.value, true).Ok?
            && Paths.Parent(Wait(r.value, true).value.path) == Some(compileDir + "/target/debug")
  {
    ExePathComponents(compileDir, source.fileName, windows);
  }
}
