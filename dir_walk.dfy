/**
 * The file selection the two formatting scripts share: the files of an
 * os.walk, each as the join of the walk root, its directory and its name,
 * and the ones whose name ends with one of a list of extensions. The walk
 * itself is an input: one entry per directory, in the order os.walk
 * yields them.
 */
module DirWalk {
  import opened OsPath
  import Seqs

  /** One (dirpath, dirnames, filenames) triple of os.walk; the subdirectory names are not used. */
  datatype WalkEntry = WalkEntry(dirpath: string, filenames: seq<string>)

  predicate HasExtension(path: string, exts: seq<string>)
  {
    exists k :: 0 <= k < |exts| && EndsWith(path, exts[k])
  }

  /**
   * The inner loop of both formatters: try the extensions in order and
   * stop at the first one the path ends with.
   */
  method MatchExtension(path: string, exts: seq<string>) returns (found: bool)
    ensures found <==> HasExtension(path, exts)
  {
    found := false;
    var k := 0;
    while k < |exts|
      invariant 0 <= k <= |exts|
      invariant !found
      invariant forall m :: 0 <= m < k ==> !EndsWith(path, exts[m])
    {
      if EndsWith(path, exts[k]) {
        found := true;
        break;
      }
      k := k + 1;
    }
  }

  /** The absolute names of files in one directory: os.path.join(dir, filename) for each, in order. */
  function Paths(dir: string, names: seq<string>): (ps: seq<string>)
    ensures |ps| == |names|
    decreases |names|
  {
    if names == [] then [] else Paths(dir, names[..|names| - 1]) + [Join(dir, names[|names| - 1])]
  }

  /** One more name, one more path. */
  lemma PathsSnoc(dir: string, names: seq<string>, j: nat)
    requires j < |names|
    ensures Paths(dir, names[..j + 1]) == Paths(dir, names[..j]) + [Join(dir, names[j])]
  {
    assert names[..j + 1][..j] == names[..j];
  }

  lemma {:induction false} PathsAppend(dir: string, a: seq<string>, b: seq<string>)
    ensures Paths(dir, a + b) == Paths(dir, a) + Paths(dir, b)
    decreases |b|
  {
    if b == [] {
      assert a + b == a;
    } else {
      var b' := b[..|b| - 1];
      assert (a + b)[..|a + b| - 1] == a + b';
      assert (a + b)[|a + b| - 1] == b[|b| - 1];
      PathsAppend(dir, a, b');
    }
  }

  /** The files of one walk entry: os.path.join(os.path.join(root, dirpath), filename). */
  function DirFiles(root: string, e: WalkEntry): seq<string>
  {
    Paths(Join(root, e.dirpath), e.filenames)
  }

  /** Every file of the walk, directory by directory, in walk order. */
  function WalkFiles(root: string, walk: seq<WalkEntry>): seq<string>
    decreases |walk|
  {
    if walk == [] then [] else WalkFiles(root, walk[..|walk| - 1]) + DirFiles(root, walk[|walk| - 1])
  }

  /** The files a formatter picks, in walk order. */
  function Select(paths: seq<string>, exts: seq<string>): (sel: seq<string>)
    ensures |sel| <= |paths|
    decreases |paths|
  {
    if paths == [] then []
    else
      var p := paths[|paths| - 1];
      Select(paths[..|paths| - 1], exts) + (if HasExtension(p, exts) then [p] else [])
  }

  /** A file is picked iff it is one of the paths and has one of the extensions. */
  lemma {:induction false} SelectMembership(paths: seq<string>, exts: seq<string>, p: string)
    ensures p in Select(paths, exts) <==> p in paths && HasExtension(p, exts)
    decreases |paths|
  {
    if paths != [] {
      var init := paths[..|paths| - 1];
      SelectMembership(init, exts, p);
      assert paths == init + [paths[|paths| - 1]];
    }
  }

  /** Selection works piece by piece: the picks of a + b are those of a, then those of b. */
  lemma {:induction false} SelectAppend(a: seq<string>, b: seq<string>, exts: seq<string>)
    ensures Select(a + b, exts) == Select(a, exts) + Select(b, exts)
    decreases |b|
  {
    if b == [] {
      assert a + b == a;
    } else {
      var b' := b[..|b| - 1];
      assert (a + b)[..|a + b| - 1] == a + b';
      assert (a + b)[|a + b| - 1] == b[|b| - 1];
      SelectAppend(a, b', exts);
    }
  }

  /** One more path is picked iff it has one of the extensions. */
  lemma SelectSnoc(paths: seq<string>, p: string, exts: seq<string>)
    ensures Select(paths + [p], exts) == Select(paths, exts) + (if HasExtension(p, exts) then [p] else [])
  {
    assert (paths + [p])[..|paths|] == paths;
  }

  /** Picking from a prefix gives a prefix of the picks. */
  lemma SelectPrefix(a: seq<string>, b: seq<string>, exts: seq<string>)
    requires a <= b
    ensures Select(a, exts) <= Select(b, exts)
  {
    assert b == a + b[|a|..];
    SelectAppend(a, b[|a|..], exts);
  }

  /** The files of a walk split the way the walk does. */
  lemma {:induction false} WalkFilesAppend(root: string, a: seq<WalkEntry>, b: seq<WalkEntry>)
    ensures WalkFiles(root, a + b) == WalkFiles(root, a) + WalkFiles(root, b)
    decreases |b|
  {
    if b == [] {
      assert a + b == a;
    } else {
      var b' := b[..|b| - 1];
      var last := DirFiles(root, b[|b| - 1]);
      assert (a + b)[..|a + b| - 1] == a + b';
      assert (a + b)[|a + b| - 1] == b[|b| - 1];
      assert WalkFiles(root, a + b) == WalkFiles(root, a + b') + last;
      WalkFilesAppend(root, a, b');
      assert WalkFiles(root, b) == WalkFiles(root, b') + last;
      Seqs.AppendAssoc(WalkFiles(root, a), WalkFiles(root, b'), last);
    }
  }

  /** The files of the first i + 1 directories: those of the first i, then those of directory i. */
  lemma WalkFilesSnoc(root: string, walk: seq<WalkEntry>, i: nat)
    requires i < |walk|
    ensures WalkFiles(root, walk[..i + 1]) == WalkFiles(root, walk[..i]) + Paths(Join(root, walk[i].dirpath), walk[i].filenames)
  {
    assert walk[..i + 1][..i] == walk[..i];
  }

  /** The files of the first k directories come first in the walk. */
  lemma WalkFilesTake(root: string, walk: seq<WalkEntry>, k: nat)
    requires k <= |walk|
    ensures WalkFiles(root, walk[..k]) <= WalkFiles(root, walk)
  {
    assert walk == walk[..k] + walk[k..];
    WalkFilesAppend(root, walk[..k], walk[k..]);
  }

  /** Within directory i, the files up to file j come first. */
  lemma WalkFilesWithin(root: string, walk: seq<WalkEntry>, i: nat, j: nat)
    requires i < |walk| && j <= |walk[i].filenames|
    ensures WalkFiles(root, walk[..i]) + Paths(Join(root, walk[i].dirpath), walk[i].filenames[..j]) <= WalkFiles(root, walk[..i + 1])
  {
    var names := walk[i].filenames;
    var dir := Join(root, walk[i].dirpath);
    assert walk[..i + 1][..i] == walk[..i];
    assert names == names[..j] + names[j..];
    PathsAppend(dir, names[..j], names[j..]);
  }

  /** The files up to file j of directory i come first in the walk. */
  lemma WalkFilesPrefix(root: string, walk: seq<WalkEntry>, i: nat, j: nat)
    requires i < |walk| && j <= |walk[i].filenames|
    ensures WalkFiles(root, walk[..i]) + Paths(Join(root, walk[i].dirpath), walk[i].filenames[..j]) <= WalkFiles(root, walk)
  {
    WalkFilesWithin(root, walk, i, j);
    WalkFilesTake(root, walk, i + 1);
  }

  lemma CommandsSnoc(cmd: string, paths: seq<string>, p: string)
    ensures Commands(cmd, paths + [p]) == Commands(cmd, paths) + [cmd + p]
  {
  }

  lemma CommandsAppend(cmd: string, a: seq<string>, b: seq<string>)
    ensures Commands(cmd, a + b) == Commands(cmd, a) + Commands(cmd, b)
  {
  }

  /** The command a formatter runs for each picked file: its command text followed by the path. */
  function Commands(cmd: string, paths: seq<string>): (cs: seq<string>)
    ensures |cs| == |paths|
    ensures forall k :: 0 <= k < |paths| ==> cs[k] == cmd + paths[k]
  {
    seq(|paths|, k requires 0 <= k < |paths| => cmd + paths[k])
  }
}
