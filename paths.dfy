/** Slash-separated paths as plain strings: the parts of Rust's `Path` that
    the artifact path and the library renaming use (`file_name`, `parent`,
    `join` of a relative name). Paths are taken as already normalised. */
module Paths {
  import opened Wrappers

  /** The final component: everything after the last `/`. */
  function FileName(p: string): (r: string)
    ensures '/' !in r
    ensures |r| <= |p| && r == p[|p| - |r|..]
    decreases |p|
  {
    if |p| == 0 || p[|p| - 1] == '/' then ""
    else FileName(p[..|p| - 1]) + [p[|p| - 1]]
  }

  /** `Path::parent`: the path without its final component, or `None` for the
      empty path and the root, which have no parent. */
  function Parent(p: string): Option<string>
  {
    if p == "" || p == "/" then None
    else
      var dir := p[..|p| - |FileName(p)|];
      if dir == "" || dir == "/" then Some(dir) else Some(dir[..|dir| - 1])
  }

  /** `dir.join(name)` for a relative `name`: one separator between them,
      none when `dir` is empty or already ends in one. */
  function JoinPath(dir: string, name: string): string
  {
    if dir == "" then name
    else if dir[|dir| - 1] == '/' then dir + name
    else dir + "/" + name
  }

  /** A directory as `parent` gives it: empty, the root, or not ending in `/`. */
  predicate IsDir(dir: string)
  {
    dir == "" || dir == "/" || dir[|dir| - 1] != '/'
  }

  /** The final component of `dir/name` is `name`. */
  lemma {:induction false} FileNameAfterSlash(dir: string, name: string)
    requires '/' !in name
    ensures FileName(dir + "/" + name) == name
    decreases |name|
  {
    var p := dir + "/" + name;
    if |name| == 0 {
      assert p[|p| - 1] == '/';
    } else {
      var init, last := name[..|name| - 1], name[|name| - 1];
      assert name == init + [last];
      assert '/' !in init;
      FileNameAfterSlash(dir, init);
      var q := dir + "/" + init;
      assert p == q + [last];
      assert p[..|p| - 1] == q;
    }
  }

  /** A string without `/` is its own final component. */
  lemma {:induction false} FileNameWithoutSlash(s: string)
    requires '/' !in s
    ensures FileName(s) == s
    decreases |s|
  {
    if |s| > 0 {
      FileNameWithoutSlash(s[..|s| - 1]);
      assert s == s[..|s| - 1] + [s[|s| - 1]];
    }
  }

  /** The parent of `prefix/name`, where `name` is a non-empty plain name. */
  lemma ParentAfterSlash(prefix: string, name: string)
    requires name != "" && '/' !in name
    ensures Parent(prefix + "/" + name) == Some(if prefix == "" then "/" else prefix)
  {
    var p := prefix + "/" + name;
    FileNameAfterSlash(prefix, name);
    assert p != "" && p != "/" by { assert |p| >= 2; }
    var dir := p[..|p| - |name|];
    assert dir == prefix + "/";
    if prefix != "" {
      assert dir != "" && dir != "/";
      assert dir[..|dir| - 1] == prefix;
    }
  }

  /** Joining a plain name onto a directory and taking the parent gives the
      directory back, and the file name gives the name back. */
  lemma JoinPathParent(dir: string, name: string)
    requires IsDir(dir)
    requires name != "" && '/' !in name
    ensures FileName(JoinPath(dir, name)) == name
    ensures Parent(JoinPath(dir, name)) == Some(dir)
  {
    if dir == "" {
      FileNameWithoutSlash(name);
      assert name[..|name| - |name|] == "";
    } else if dir == "/" {
      assert JoinPath(dir, name) == "" + "/" + name;
      FileNameAfterSlash("", name);
      ParentAfterSlash("", name);
    } else {
      FileNameAfterSlash(dir, name);
      ParentAfterSlash(dir, name);
    }
  }

  /** Names joined onto the same directory give the same path only when the
      names are the same. */
  lemma JoinPathInjective(dir: string, a: string, b: string)
    requires JoinPath(dir, a) == JoinPath(dir, b)
    ensures a == b
  {
    var k := if dir == "" then 0 else if dir[|dir| - 1] == '/' then |dir| else |dir| + 1;
    assert JoinPath(dir, a)[k..] == a;
    assert JoinPath(dir, b)[k..] == b;
  }
}
