/** The command-tree completers of `papyrus/src/complete/cmdr.rs`. The command
    engine lists every command and action as a dotted path (`root.foo.bar`,
    actions ending in `..name`); the completers rewrite each path relative to
    the current position as space-separated words, offer those that continue
    the typed line, and find the actions the typed line invokes. The engine's
    path listing, current path, root name and "at root" flag are inputs. */
module CmdrComplete {
  import opened Text

  /** Completions start with `.` at the root of the tree. */
  function RootPrefix(atRoot: bool): string
  {
    if atRoot then "." else ""
  }

  /** One step of the fold that builds a completion: a space before every
      segment except the first, then the segment. */
  function PushSegment(s: string, prefixLen: nat, segment: string): string
  {
    (if |s| != prefixLen then s + " " else s) + segment
  }

  /** The fold over the segments, from the prefix. */
  function FoldSegments(acc: string, prefixLen: nat, segments: seq<string>): string
    decreases |segments|
  {
    if segments == [] then acc
    else FoldSegments(PushSegment(acc, prefixLen, segments[0]), prefixLen, segments[1..])
  }

  /** The non-empty dot-separated segments of `path` below the current path. */
  function Segments(path: string, cpath: string): (r: seq<string>)
    requires |cpath| <= |path|
    ensures forall i :: 0 <= i < |r| ==> r[i] != "" && '.' !in r[i]
  {
    NonEmpty(Split(path[|cpath|..], '.'))
  }

  /** Folding non-empty segments onto `prefix + body` puts single spaces
      between `body` (if any) and the segments. */
  lemma {:induction false} FoldJoins(prefix: string, body: string, segments: seq<string>)
    requires forall i :: 0 <= i < |segments| ==> segments[i] != ""
    ensures FoldSegments(prefix + body, |prefix|, segments)
         == prefix + Join((if body == "" then [] else [body]) + segments, " ")
    decreases |segments|
  {
    if segments != [] {
      var s0, rest := segments[0], segments[1..];
      assert segments == [s0] + rest;
      if body == "" {
        assert PushSegment(prefix + body, |prefix|, s0) == prefix + s0;
        FoldJoins(prefix, s0, rest);
        assert ([] + segments) == [s0] + rest;
      } else {
        var body' := body + " " + s0;
        assert PushSegment(prefix + body, |prefix|, s0) == prefix + body';
        FoldJoins(prefix, body', rest);
        assert ([body'] + rest)[1..] == rest;
        assert ([body] + segments)[1..] == [s0] + rest;
        assert ([s0] + rest)[1..] == rest;
      }
    }
  }

  /** The completion text for one dotted path: its segments below the current
      path, separated by single spaces, after the root marker. */
  function Rewrite(path: string, cpath: string, atRoot: bool): (e: string)
    requires |cpath| <= |path|
    ensures e == RootPrefix(atRoot) + Join(Segments(path, cpath), " ")
  {
    var prefix := RootPrefix(atRoot);
    var segments := Segments(path, cpath);
    FoldJoins(prefix, "", segments);
    assert prefix + "" == prefix && [] + segments == segments;
    FoldSegments(prefix, |prefix|, segments)
  }

  /** A completion begins with `.` exactly when it is made at the root. */
  lemma RewriteRootMarker(path: string, cpath: string, atRoot: bool)
    requires |cpath| <= |path|
    ensures var e := Rewrite(path, cpath, atRoot);
            (|e| > 0 && e[0] == '.') <==> atRoot
  {
  }

  /** Splitting a completion at its spaces gives back exactly the path's
      segments, none of them empty, when no segment holds a space: the words
      are separated by exactly one space. */
  lemma RewriteWords(path: string, cpath: string, atRoot: bool)
    requires |cpath| <= |path|
    requires Segments(path, cpath) != []
    requires forall i :: 0 <= i < |Segments(path, cpath)| ==> ' ' !in Segments(path, cpath)[i]
    ensures Split(Rewrite(path, cpath, atRoot)[|RootPrefix(atRoot)|..], ' ') == Segments(path, cpath)
  {
    var e := Rewrite(path, cpath, atRoot);
    assert e[|RootPrefix(atRoot)|..] == Join(Segments(path, cpath), " ");
    SplitJoin(Segments(path, cpath), ' ');
  }

  // ---------------------------------------------------------------------
  // Space-separated completions

  datatype CmdTreeCompleter = CmdTreeCompleter(spaceSeparatedElements: seq<string>)

  /** Every path of the structure lies at or below the current path. */
  predicate BelowCurrent(structure: seq<string>, cpath: string)
  {
    forall i :: 0 <= i < |structure| ==> |cpath| <= |structure[i]|
  }

  /** `CmdTreeCompleter::build`: one completion per path, in path order. */
  function Build(structure: seq<string>, cpath: string, atRoot: bool): (c: CmdTreeCompleter)
    requires BelowCurrent(structure, cpath)
    ensures |c.spaceSeparatedElements| == |structure|
    ensures forall i :: 0 <= i < |structure| ==>
              c.spaceSeparatedElements[i] == Rewrite(structure[i], cpath, atRoot)
    decreases |structure|
  {
    if structure == [] then CmdTreeCompleter([])
    else
      var rest := Build(structure[1..], cpath, atRoot);
      CmdTreeCompleter([Rewrite(structure[0], cpath, atRoot)] + rest.spaceSeparatedElements)
  }

  /** Each built completion starts with `.` exactly when at the root. */
  lemma BuildRootMarker(structure: seq<string>, cpath: string, atRoot: bool, i: nat)
    requires BelowCurrent(structure, cpath) && i < |structure|
    ensures var e := Build(structure, cpath, atRoot).spaceSeparatedElements[i];
            (|e| > 0 && e[0] == '.') <==> atRoot
  {
    RewriteRootMarker(structure[i], cpath, atRoot);
  }

  /** `complete`: the completions that start with the whole typed line, each
      from `start` on, in order. Every result continues the typed text from
      `start`. */
  function Complete(c: CmdTreeCompleter, line: string, start: nat): (r: seq<string>)
    requires start <= |line|
    ensures |r| <= |c.spaceSeparatedElements|
    ensures forall k :: 0 <= k < |r| ==> line[start..] <= r[k]
    decreases |c.spaceSeparatedElements|
  {
    var elements := c.spaceSeparatedElements;
    if elements == [] then []
    else
      var rest := Complete(CmdTreeCompleter(elements[1..]), line, start);
      if line <= elements[0] then [elements[0][start..]] + rest else rest
  }

  /** The completions are exactly the elements that start with the typed
      line, each from `start` on. */
  lemma {:induction false} CompleteMembers(elements: seq<string>, line: string, start: nat)
    requires start <= |line|
    ensures forall e :: e in elements && line <= e ==>
              e[start..] in Complete(CmdTreeCompleter(elements), line, start)
    ensures forall s :: s in Complete(CmdTreeCompleter(elements), line, start) ==>
              exists e :: e in elements && line <= e && s == e[start..]
    decreases |elements|
  {
    if elements != [] {
      CompleteMembers(elements[1..], line, start);
      assert forall e :: e in elements ==> e == elements[0] || e in elements[1..];
    }
  }

  /** Completions keep the order of the completer's elements. */
  lemma {:induction false} CompleteAppend(a: seq<string>, b: seq<string>, line: string, start: nat)
    requires start <= |line|
    ensures Complete(CmdTreeCompleter(a + b), line, start)
         == Complete(CmdTreeCompleter(a), line, start) + Complete(CmdTreeCompleter(b), line, start)
    decreases |a|
  {
    if a == [] {
      assert a + b == b;
    } else {
      assert (a + b)[0] == a[0] && (a + b)[1..] == a[1..] + b;
      CompleteAppend(a[1..], b, line, start);
    }
  }

  // ---------------------------------------------------------------------
  // Actions

  /** An action's completion text and its path without the root segment. */
  datatype ActionMatch = ActionMatch(matchStr: string, qualifiedPath: string)

  datatype CmdTreeActionCompleter = CmdTreeActionCompleter(actionElements: seq<ActionMatch>)

  /** `x.contains("..")`: action paths hold two dots in a row. */
  predicate IsAction(path: string)
  {
    exists i :: 0 <= i < |path| - 1 && path[i] == '.' && path[i + 1] == '.'
  }

  /** Every action path lies below the current path and is longer than the
      root name and its dot. */
  predicate ActionsSliceable(structure: seq<string>, rootName: string, cpath: string)
  {
    forall i :: 0 <= i < |structure| && IsAction(structure[i]) ==>
      |cpath| <= |structure[i]| && |rootName| + 1 <= |structure[i]|
  }

  /** The path without the root segment and its dot: putting `root.` back in
      front gives the path again. */
  function QualifiedPath(path: string, rootName: string): (q: string)
    requires |rootName| + 1 <= |path|
    ensures |q| == |path| - |rootName| - 1
    ensures rootName + "." <= path ==> rootName + "." + q == path
  {
    assert path == path[..|rootName| + 1] + path[|rootName| + 1..];
    path[|rootName| + 1..]
  }

  /** The action match for one action path. */
  function MakeAction(path: string, rootName: string, cpath: string, atRoot: bool): ActionMatch
    requires |cpath| <= |path| && |rootName| + 1 <= |path|
  {
    ActionMatch(Rewrite(path, cpath, atRoot), QualifiedPath(path, rootName))
  }

  /** The tail of a sliceable structure is sliceable. */
  lemma SliceableTail(structure: seq<string>, rootName: string, cpath: string)
    requires structure != [] && ActionsSliceable(structure, rootName, cpath)
    ensures ActionsSliceable(structure[1..], rootName, cpath)
  {
    forall i | 0 <= i < |structure[1..]| && IsAction(structure[1..][i])
      ensures |cpath| <= |structure[1..][i]| && |rootName| + 1 <= |structure[1..][i]|
    {
      assert structure[1..][i] == structure[i + 1];
    }
  }

  /** `CmdTreeActionCompleter::build`: an action match for each action path,
      in path order. */
  function BuildActions(structure: seq<string>, rootName: string, cpath: string, atRoot: bool)
    : (c: CmdTreeActionCompleter)
    requires ActionsSliceable(structure, rootName, cpath)
    ensures |c.actionElements| <= |structure|
    decreases |structure|
  {
    if structure == [] then CmdTreeActionCompleter([])
    else
      SliceableTail(structure, rootName, cpath);
      var rest := BuildActions(structure[1..], rootName, cpath, atRoot).actionElements;
      if IsAction(structure[0])
      then CmdTreeActionCompleter([MakeAction(structure[0], rootName, cpath, atRoot)] + rest)
      else CmdTreeActionCompleter(rest)
  }

  /** The action matches are exactly those of the paths that contain `..`:
      every one has its match, and every match comes from one. */
  lemma {:induction false} BuildActionsMembers(structure: seq<string>, rootName: string,
                                               cpath: string, atRoot: bool)
    requires ActionsSliceable(structure, rootName, cpath)
    ensures forall i :: 0 <= i < |structure| && IsAction(structure[i]) ==>
              MakeAction(structure[i], rootName, cpath, atRoot)
                in BuildActions(structure, rootName, cpath, atRoot).actionElements
    ensures forall a :: a in BuildActions(structure, rootName, cpath, atRoot).actionElements ==>
              exists i :: 0 <= i < |structure| && IsAction(structure[i])
                          && a == MakeAction(structure[i], rootName, cpath, atRoot)
    decreases |structure|
  {
    if structure != [] {
      var p0, rest := structure[0], structure[1..];
      SliceableTail(structure, rootName, cpath);
      BuildActionsMembers(rest, rootName, cpath, atRoot);
      var r := BuildActions(structure, rootName, cpath, atRoot).actionElements;
      var rr := BuildActions(rest, rootName, cpath, atRoot).actionElements;
      assert r == (if IsAction(p0) then [MakeAction(p0, rootName, cpath, atRoot)] else []) + rr;
      forall i | 0 <= i < |structure| && IsAction(structure[i])
        ensures MakeAction(structure[i], rootName, cpath, atRoot) in r
      {
        if i > 0 { assert structure[i] == rest[i - 1]; }
      }
      forall a | a in r
        ensures exists i :: 0 <= i < |structure| && IsAction(structure[i])
                            && a == MakeAction(structure[i], rootName, cpath, atRoot)
      {
        if a in rr {
          var j :| 0 <= j < |rest| && IsAction(rest[j]) && a == MakeAction(rest[j], rootName, cpath, atRoot);
          assert rest[j] == structure[j + 1];
        } else {
          assert IsAction(structure[0]) && a == MakeAction(structure[0], rootName, cpath, atRoot);
        }
      }
    }
  }

  /** The action matches keep the order of the paths. */
  lemma {:induction false} BuildActionsAppend(a: seq<string>, b: seq<string>, rootName: string,
                                              cpath: string, atRoot: bool)
    requires ActionsSliceable(a + b, rootName, cpath)
    ensures ActionsSliceable(a, rootName, cpath) && ActionsSliceable(b, rootName, cpath)
    ensures BuildActions(a + b, rootName, cpath, atRoot).actionElements
         == BuildActions(a, rootName, cpath, atRoot).actionElements
            + BuildActions(b, rootName, cpath, atRoot).actionElements
    decreases |a|
  {
    var ab := a + b;
    assert ActionsSliceable(a, rootName, cpath) by {
      forall i | 0 <= i < |a| ensures a[i] == ab[i] { }
    }
    assert ActionsSliceable(b, rootName, cpath) by {
      forall i | 0 <= i < |b| ensures b[i] == ab[|a| + i] { }
    }
    if a == [] {
      assert ab == b;
    } else {
      assert ab[0] == a[0] && ab[1..] == a[1..] + b;
      SliceableTail(ab, rootName, cpath);
      BuildActionsAppend(a[1..], b, rootName, cpath, atRoot);
    }
  }

  /** What the line dispatcher needs to run an action. */
  datatype Candidate = Candidate(qualifiedPath: string, word: string, line: string, wordStart: nat)

  function Min(a: int, b: int): int
  {
    if a <= b then a else b
  }

  /** The candidate for an action the line starts with. Its `line` is a
      non-empty tail of the typed line: the text after the action name and the
      character that follows it, or just the last character when the line ends
      sooner. */
  function MakeCandidate(a: ActionMatch, word: string, line: string, start: nat): (c: Candidate)
    requires a.matchStr <= line && line != []
    ensures c.qualifiedPath == a.qualifiedPath && c.word == word && c.wordStart == start
    ensures 1 <= |c.line| <= |line| && c.line == line[|line| - |c.line|..]
    ensures |line| >= |a.matchStr| + 2 ==> c.line == line[|a.matchStr| + 1..]
    ensures |line| < |a.matchStr| + 2 ==> c.line == [line[|line| - 1]]
  {
    var s := Min(|a.matchStr| + 1, |line| - 1);
    Candidate(a.qualifiedPath, word, line[s..], start)
  }

  /** An empty line is only ever matched by an action with an empty match
      string, whose candidate the source cannot build (`line.len() - 1`
      underflows). */
  predicate CandidatesDefined(c: CmdTreeActionCompleter, line: string)
  {
    line != [] || forall a :: a in c.actionElements ==> a.matchStr != []
  }

  /** `candidates`, as written: a candidate for each action whose match string
      is a prefix of the line, in action order. */
  function Candidates(c: CmdTreeActionCompleter, word: string, line: string, start: nat)
    : (r: seq<Candidate>)
    requires CandidatesDefined(c, line)
    ensures |r| <= |c.actionElements|
    ensures forall k :: 0 <= k < |r| ==> r[k].word == word && r[k].wordStart == start
    decreases |c.actionElements|
  {
    var actions := c.actionElements;
    if actions == [] then []
    else
      assert forall a :: a in actions[1..] ==> a in actions;
      var rest := Candidates(CmdTreeActionCompleter(actions[1..]), word, line, start);
      if actions[0].matchStr <= line then [MakeCandidate(actions[0], word, line, start)] + rest else rest
  }

  /** As written, the candidates are exactly those of the actions whose match
      string the line starts with. */
  lemma {:induction false} CandidatesMembers(actions: seq<ActionMatch>, word: string, line: string,
                                             start: nat)
    requires CandidatesDefined(CmdTreeActionCompleter(actions), line)
    ensures forall a :: a in actions && a.matchStr <= line ==>
              line != [] && MakeCandidate(a, word, line, start)
                in Candidates(CmdTreeActionCompleter(actions), word, line, start)
    ensures forall x :: x in Candidates(CmdTreeActionCompleter(actions), word, line, start) ==>
              exists a :: a in actions && a.matchStr <= line && line != []
                          && x == MakeCandidate(a, word, line, start)
    decreases |actions|
  {
    if actions != [] {
      var a0, rest := actions[0], actions[1..];
      assert forall a :: a in rest ==> a in actions;
      CandidatesMembers(rest, word, line, start);
      var r := Candidates(CmdTreeActionCompleter(actions), word, line, start);
      var rr := Candidates(CmdTreeActionCompleter(rest), word, line, start);
      assert r == (if a0.matchStr <= line then [MakeCandidate(a0, word, line, start)] else []) + rr;
      forall a | a in actions && a.matchStr <= line
        ensures line != [] && MakeCandidate(a, word, line, start) in r
      {
        if a != a0 { assert a in rest; }
      }
      forall x | x in r
        ensures exists a :: a in actions && a.matchStr <= line && line != []
                            && x == MakeCandidate(a, word, line, start)
      {
        if x !in rr {
          assert a0 in actions && x == MakeCandidate(a0, word, line, start);
        }
      }
    }
  }

  /** Candidates keep the order of the actions. */
  lemma {:induction false} CandidatesAppend(a: seq<ActionMatch>, b: seq<ActionMatch>, word: string,
                                            line: string, start: nat)
    requires CandidatesDefined(CmdTreeActionCompleter(a + b), line)
    ensures CandidatesDefined(CmdTreeActionCompleter(a), line)
    ensures CandidatesDefined(CmdTreeActionCompleter(b), line)
    ensures Candidates(CmdTreeActionCompleter(a + b), word, line, start)
         == Candidates(CmdTreeActionCompleter(a), word, line, start)
            + Candidates(CmdTreeActionCompleter(b), word, line, start)
    decreases |a|
  {
    var ab := a + b;
    assert forall x :: x in a ==> x in ab;
    assert forall x :: x in b ==> x in ab;
    if a == [] {
      assert ab == b;
    } else {
      assert ab[0] == a[0] && ab[1..] == a[1..] + b;
      assert CandidatesDefined(CmdTreeActionCompleter(a[1..] + b), line) by {
        assert forall x :: x in a[1..] + b ==> x in ab;
      }
      CandidatesAppend(a[1..], b, word, line, start);
    }
  }

  /** As written, a shorter action whose name begins a longer one also matches
      a line that names the longer one: with actions `foo` and `foobar`, the
      line `foobar ` yields a candidate for `foo` as well as for `foobar`. */
  lemma ShorterActionAlsoMatches()
    ensures var c := CmdTreeActionCompleter([ActionMatch("foo", "foo"), ActionMatch("foobar", "foobar")]);
            var r := Candidates(c, "", "foobar ", 0);
            |r| == 2 && r[0].qualifiedPath == "foo" && r[1].qualifiedPath == "foobar"
  {
    var c := CmdTreeActionCompleter([ActionMatch("foo", "foo"), ActionMatch("foobar", "foobar")]);
    assert "foo" <= "foobar ";
    assert "foobar" <= "foobar ";
    assert c.actionElements[1..] == [ActionMatch("foobar", "foobar")];
  }

  /** `candidates` as its comment intends: an action matches only once its
      match string is followed by a space in the line. */
  function CandidatesDelimited(c: CmdTreeActionCompleter, word: string, line: string, start: nat)
    : (r: seq<Candidate>)
    ensures |r| <= |c.actionElements|
    ensures forall k :: 0 <= k < |r| ==> r[k].word == word && r[k].wordStart == start
    decreases |c.actionElements|
  {
    var actions := c.actionElements;
    if actions == [] then []
    else
      var rest := CandidatesDelimited(CmdTreeActionCompleter(actions[1..]), word, line, start);
      if actions[0].matchStr + " " <= line then [MakeCandidate(actions[0], word, line, start)] + rest
      else rest
  }

  /** With the delimiter, the candidates are exactly those of the actions
      whose match string the line starts with, followed by a space. */
  lemma {:induction false} CandidatesDelimitedMembers(actions: seq<ActionMatch>, word: string,
                                                      line: string, start: nat)
    ensures forall a :: a in actions && a.matchStr + " " <= line ==>
              MakeCandidate(a, word, line, start)
                in CandidatesDelimited(CmdTreeActionCompleter(actions), word, line, start)
    ensures forall x :: x in CandidatesDelimited(CmdTreeActionCompleter(actions), word, line, start) ==>
              exists a :: a in actions && a.matchStr + " " <= line
                          && x == MakeCandidate(a, word, line, start)
    decreases |actions|
  {
    if actions != [] {
      var a0, rest := actions[0], actions[1..];
      CandidatesDelimitedMembers(rest, word, line, start);
      var r := CandidatesDelimited(CmdTreeActionCompleter(actions), word, line, start);
      var rr := CandidatesDelimited(CmdTreeActionCompleter(rest), word, line, start);
      assert r == (if a0.matchStr + " " <= line then [MakeCandidate(a0, word, line, start)] else []) + rr;
      forall a | a in actions && a.matchStr + " " <= line
        ensures MakeCandidate(a, word, line, start) in r
      {
        if a != a0 { assert a in rest; }
      }
      forall x | x in r
        ensures exists a :: a in actions && a.matchStr + " " <= line && x == MakeCandidate(a, word, line, start)
      {
        if x !in rr {
          assert a0 in actions && x == MakeCandidate(a0, word, line, start);
        }
      }
    }
  }

  /** A match string followed by a space is not a prefix of a line that
      continues it with anything but a space. */
  lemma DelimiterRejectsExtension(short: string, long: string, line: string)
    requires short <= long && |short| < |long| && long[|short|] != ' '
    requires long <= line
    ensures !(short + " " <= line)
  {
    assert line[|short|] == long[|short|];
    assert (short + " ")[|short|] == ' ';
  }

  /** With the delimiter required, a line that types a longer action name
      `long` gets no candidate from an action whose match string `short`
      begins `long` but is not followed there by a space: every candidate
      comes from an action with another match string. */
  lemma DelimitedMatchIsUnambiguous(actions: seq<ActionMatch>, word: string, line: string, start: nat,
                                    short: string, long: string)
    requires short <= long && |short| < |long| && long[|short|] != ' '
    requires long <= line
    ensures forall x :: x in CandidatesDelimited(CmdTreeActionCompleter(actions), word, line, start) ==>
              exists a :: a in actions && a.matchStr != short && a.matchStr + " " <= line
                          && x == MakeCandidate(a, word, line, start)
  {
    CandidatesDelimitedMembers(actions, word, line, start);
    DelimiterRejectsExtension(short, long, line);
  }

  /** The intended behaviour on the actions `foo` and `foobar`: `foo ` picks
      only `foo`, `foob` picks nothing, `foobar ` picks only `foobar`. */
  lemma DelimitedExample()
    ensures var c := CmdTreeActionCompleter([ActionMatch("foo", "foo"), ActionMatch("foobar", "foobar")]);
            && |CandidatesDelimited(c, "", "foo ", 0)| == 1
            && CandidatesDelimited(c, "", "foo ", 0)[0].qualifiedPath == "foo"
            && CandidatesDelimited(c, "", "foob", 0) == []
            && |CandidatesDelimited(c, "", "foobar ", 0)| == 1
            && CandidatesDelimited(c, "", "foobar ", 0)[0].qualifiedPath == "foobar"
  {
    var c := CmdTreeActionCompleter([ActionMatch("foo", "foo"), ActionMatch("foobar", "foobar")]);
    assert c.actionElements[1..] == [ActionMatch("foobar", "foobar")];
    assert "foo" + " " <= "foo ";
    assert !("foobar" + " " <= "foo ");
    assert !("foo" + " " <= "foob") by { assert ("foo" + " ")[3] != "foob"[3]; }
    assert !("foobar" + " " <= "foob");
    assert !("foo" + " " <= "foobar ") by { assert ("foo" + " ")[3] != "foobar "[3]; }
    assert "foobar" + " " <= "foobar ";
  }
}
