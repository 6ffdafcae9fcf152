/**
 * The parts of Python's os.path the build and format scripts rely on, for
 * POSIX paths: join, the parent of a normalised absolute path, and the
 * suffix test of str.endswith.
 */
module OsPath {
  predicate EndsWith(s: string, suffix: string)
  {
    |suffix| <= |s| && s[|s| - |suffix|..] == suffix
  }

  predicate IsAbsolute(p: string)
  {
    p != [] && p[0] == '/'
  }

  /**
   * os.path.join(a, b): an absolute b replaces a; otherwise b is added
   * after a, with a '/' between unless a is empty or already ends in one.
   */
  function Join(a: string, b: string): string
  {
    if IsAbsolute(b) then b
    else if a == [] || a[|a| - 1] == '/' then a + b
    else a + "/" + b
  }

  /**
   * The joined path always ends with b; an absolute b is the whole result,
   * and after a directory without a trailing '/' exactly one '/' is put in.
   */
  lemma JoinShape(a: string, b: string)
    ensures EndsWith(Join(a, b), b)
    ensures IsAbsolute(b) ==> Join(a, b) == b
    ensures !IsAbsolute(b) && a != [] && a[|a| - 1] != '/' ==> Join(a, b) == a + "/" + b
  {
    var r := Join(a, b);
    assert r[|r| - |b|..] == b;
  }

  /** A single path component: no '/' in it. */
  predicate IsName(c: string)
  {
    c != [] && forall i :: 0 <= i < |c| ==> c[i] != '/'
  }

  /**
   * A directory as abspath leaves it: the root "/" alone, or a path that
   * does not end in '/'. The empty path stands for the current directory
   * in os.path.join.
   */
  predicate IsDir(a: string)
  {
    a == [] || a == "/" || a[|a| - 1] != '/'
  }

  /** What a name is written after when joined under the directory a. */
  function DirPrefix(a: string): string
  {
    if a == [] || a == "/" then a else a + "/"
  }

  /**
   * A name joined under a directory follows it with exactly one '/' (none
   * after "/" or the empty path), and the result is a directory again.
   */
  lemma JoinName(a: string, c: string)
    requires IsDir(a) && IsName(c)
    ensures Join(a, c) == DirPrefix(a) + c
    ensures a != [] && a != "/" ==> Join(a, c) == a + "/" + c
    ensures Join(a, c) != [] && Join(a, c)[|Join(a, c)| - 1] != '/'
    ensures IsDir(Join(a, c)) && Join(a, c) != "/"
  {
    assert c[0] != '/' && c[|c| - 1] != '/';
  }

  /**
   * The directory part of a normalised path, as os.path.dirname gives it:
   * everything before the last '/', except that a path whose only '/' is
   * the leading one has the root "/" as its parent, and a path without
   * any '/' has the empty parent.
   */
  function Parent(p: string): (r: string)
    ensures |r| <= |p|
    decreases |p|
  {
    if p == [] then []
    else if p == "/" then p
    else if p[|p| - 1] == '/' then p[..|p| - 1]
    else Parent(p[..|p| - 1])
  }

  /** The parent of a directory joined with a name is that directory, the root "/" included. */
  lemma {:induction false} ParentOfJoin(a: string, c: string)
    requires IsName(c) && IsDir(a)
    ensures Parent(Join(a, c)) == a
    decreases |c|
  {
    JoinName(a, c);
    var d := DirPrefix(a);
    var p := d + c;
    if |c| == 1 {
      assert p[..|p| - 1] == d;
      if a != [] && a != "/" {
        assert d[..|d| - 1] == a;
      }
    } else {
      var c' := c[..|c| - 1];
      assert p[..|p| - 1] == d + c';
      JoinName(a, c');
      ParentOfJoin(a, c');
    }
  }

  /** The project root of a script in <root>/build/scripts: abspath(join(dir, "..", "..")). */
  function ProjectRoot(scriptDir: string): string
  {
    Parent(Parent(scriptDir))
  }

  /**
   * The build script finds the root it lives two levels under, a checkout
   * at the filesystem root "/" included.
   */
  lemma ProjectRootOfScriptDir(root: string)
    requires IsDir(root)
    ensures ProjectRoot(Join(Join(root, "build"), "scripts")) == root
  {
    ParentOfJoin(root, "build");
    JoinName(root, "build");
    ParentOfJoin(Join(root, "build"), "scripts");
  }

  /** A checkout at the filesystem root: abspath("/build/scripts/../..") is "/". */
  lemma ProjectRootAtFilesystemRoot()
    ensures ProjectRoot("/build/scripts") == "/"
    ensures Join(ProjectRoot("/build/scripts"), "out") == "/out"
  {
    JoinName("/", "build");
    assert Join("/", "build") == "/build";
    JoinName("/build", "scripts");
    assert Join("/build", "scripts") == "/build/scripts";
    ProjectRootOfScriptDir("/");
  }
}
