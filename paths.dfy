/** POSIX path joining (os.path.join) and the two shapes a test file name
    may take: a plain string, or a tuple of components such as
    ('dir', 'foo') for a file 'foo' inside a subdirectory 'dir'. */
module Paths {

  datatype FileName = Name(name: string) | Parts(parts: seq<string>)

  /** Python treats the empty string and the empty tuple as false, so
      `file_name or default` replaces them (and None, modelled as Name("")). */
  predicate Falsy(f: FileName) {
    match f
    case Name(n) => |n| == 0
    case Parts(ps) => |ps| == 0
  }

  predicate IsAbsolute(p: string) {
    |p| > 0 && p[0] == '/'
  }

  /** posixpath.join(a, b): an absolute b replaces what came before; a
      separator is inserted unless a is empty or already ends in one. */
  function Join1(a: string, b: string): string {
    if IsAbsolute(b) then b
    else if a == [] || a[|a| - 1] == '/' then a + b
    else a + "/" + b
  }

  /** An absolute component replaces the path; a relative one is appended
      after the path, with one '/' between them exactly when the path is
      non-empty and does not already end in '/'. */
  lemma Join1Shape(a: string, b: string)
    ensures var r := Join1(a, b);
      && (IsAbsolute(b) ==> r == b)
      && (!IsAbsolute(b) ==>
            && |a| + |b| <= |r| <= |a| + |b| + 1 && r[..|a|] == a && r[|r| - |b|..] == b
            && (|r| == |a| + |b| + 1 <==> (a != [] && a[|a| - 1] != '/'))
            && (|r| == |a| + |b| + 1 ==> r[|a|] == '/'))
  {
  }

  /** posixpath.join(a, *parts), one component at a time from the left. */
  function Join(a: string, parts: seq<string>): string {
    if parts == [] then a else Join1(Join(a, parts[..|parts| - 1]), parts[|parts| - 1])
  }

  /** The path CreateTempFile writes: os.path.join(tmpdir, *file_name) for a
      tuple, os.path.join(tmpdir, file_name) otherwise. */
  function FilePath(dir: string, f: FileName): string {
    match f
    case Name(n) => Join1(dir, n)
    case Parts(ps) => Join(dir, ps)
  }

  /** A one-component tuple names the same file as the bare string. */
  lemma SingletonTuple(dir: string, n: string)
    ensures FilePath(dir, Parts([n])) == FilePath(dir, Name(n))
  {
    var ps := [n];
    assert ps[..0] == [] && ps[0] == n;
    assert Join(dir, ps) == Join1(Join(dir, []), n);
  }

  predicate NoAbsolutePart(parts: seq<string>) {
    forall i :: 0 <= i < |parts| ==> !IsAbsolute(parts[i])
  }

  /** Joining relative components to a directory stays below it: the
      directory is a prefix of the result and, unless it already ends in a
      separator, the next character is one. */
  lemma {:induction false} JoinStaysInside(dir: string, parts: seq<string>)
    requires dir != "" && NoAbsolutePart(parts)
    ensures var r := Join(dir, parts);
      |r| >= |dir| && r[..|dir|] == dir &&
      (parts != [] && dir[|dir| - 1] != '/' ==> |r| > |dir| && r[|dir|] == '/')
  {
    if parts != [] {
      var init := parts[..|parts| - 1];
      assert NoAbsolutePart(init) by {
        forall i | 0 <= i < |init| ensures !IsAbsolute(init[i]) {
          assert init[i] == parts[i];
        }
      }
      JoinStaysInside(dir, init);
      var j := Join(dir, init);
      Join1Shape(j, parts[|parts| - 1]);
      var last := parts[|parts| - 1];
      assert !IsAbsolute(last);
      if j[|j| - 1] == '/' {
        assert Join(dir, parts) == j + last;
        if init == [] {
          assert j == dir;
        }
      } else {
        assert Join(dir, parts) == j + "/" + last;
      }
    }
  }

  /** The path of a file named relative to a non-empty directory lies in
      that directory. */
  lemma FilePathInside(dir: string, f: FileName)
    requires dir != ""
    requires f.Name? ==> !IsAbsolute(f.name)
    requires f.Parts? ==> NoAbsolutePart(f.parts)
    ensures var p := FilePath(dir, f);
      |p| >= |dir| && p[..|dir|] == dir
  {
    match f
    case Name(n) => Join1Shape(dir, n);
    case Parts(ps) => JoinStaysInside(dir, ps);
  }
}
