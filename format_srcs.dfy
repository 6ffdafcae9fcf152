/**
 * format_srcs.py: clang-format every C and C++ file under <script dir>/wind,
 * printing each command before it runs and again with " done." after it.
 * The exit status of a command is never looked at, so every picked file
 * is attempted whatever the earlier commands returned.
 */
module FormatSrcs {
  import opened OsPath
  import opened DirWalk
  import opened Shell
  import FormatCodes

  const FORMAT_CMD: string := "clang-format -i "
  const TO_FORMAT_EXTS: seq<string> := [".c", ".cc", ".cxx", ".cpp", ".h", ".hpp"]

  /** This script picks the same six extensions as build/scripts/format_codes.py, so the same files. */
  lemma SameFilesPicked(paths: seq<string>)
    ensures Select(paths, TO_FORMAT_EXTS) == Select(paths, FormatCodes.TO_FORMAT_EXTS)
  {
  }

  /** What a command leaves in the log: its text printed, the command run, and the done line printed. */
  function Echo(cmd: string): seq<Action>
  {
    [Said(cmd), Ran(cmd), Said(cmd + " done.")]
  }

  /** The log of a list of commands, each echoed before and after it runs. */
  function Echoes(cmds: seq<string>): (r: seq<Action>)
    ensures |r| == 3 * |cmds|
    decreases |cmds|
  {
    if cmds == [] then [] else Echoes(cmds[..|cmds| - 1]) + Echo(cmds[|cmds| - 1])
  }

  lemma {:induction false} EchoesAppend(a: seq<string>, b: seq<string>)
    ensures Echoes(a + b) == Echoes(a) + Echoes(b)
    decreases |b|
  {
    if b == [] {
      assert a + b == a;
    } else {
      var b' := b[..|b| - 1];
      assert (a + b)[..|a + b| - 1] == a + b';
      assert (a + b)[|a + b| - 1] == b[|b| - 1];
      EchoesAppend(a, b');
    }
  }

  /** Each command appears in the log as a run, in order. */
  lemma {:induction false} EchoesRunInOrder(cmds: seq<string>, k: nat)
    requires k < |cmds|
    ensures Echoes(cmds)[3 * k + 1] == Ran(cmds[k])
    decreases |cmds|
  {
    if k < |cmds| - 1 {
      EchoesRunInOrder(cmds[..|cmds| - 1], k);
    }
  }

  /** The commands format_srcs issues: one per picked file, in walk order. */
  function SrcsCommands(root: string, walk: seq<WalkEntry>): seq<string>
  {
    Commands(FORMAT_CMD, Select(WalkFiles(root, walk), TO_FORMAT_EXTS))
  }

  /** The body of the file loop: a picked file's command is printed, run and printed again. */
  method FormatFile(shell: Shell, absFileName: string)
    modifies shell`actions, shell`commands
    ensures !HasExtension(absFileName, TO_FORMAT_EXTS) ==>
      shell.actions == old(shell.actions) && shell.commands == old(shell.commands)
    ensures HasExtension(absFileName, TO_FORMAT_EXTS) ==>
      && shell.commands == old(shell.commands) + [FORMAT_CMD + absFileName]
      && shell.actions == old(shell.actions) + Echo(FORMAT_CMD + absFileName)
  {
    var toFormatFlag := MatchExtension(absFileName, TO_FORMAT_EXTS);
    if toFormatFlag {
      var formatCmd := FORMAT_CMD + absFileName;
      shell.Print(formatCmd);
      var _ := shell.Execute(formatCmd);
      shell.Print(formatCmd + " done.");
    }
  }

  /** What the loops have done once the files `done` are behind them. */
  ghost predicate Progress(shell: Shell, commands0: seq<string>, actions0: seq<Action>, done: seq<string>)
    reads shell
  {
    var cmds := Commands(FORMAT_CMD, Select(done, TO_FORMAT_EXTS));
    shell.commands == commands0 + cmds && shell.actions == actions0 + Echoes(cmds)
  }

  /** Progress over one more file. */
  lemma ProgressStep(shell: Shell, commands0: seq<string>, actions0: seq<Action>, done: seq<string>, p: string,
                     commands1: seq<string>, actions1: seq<Action>)
    requires commands1 == commands0 + Commands(FORMAT_CMD, Select(done, TO_FORMAT_EXTS))
    requires actions1 == actions0 + Echoes(Commands(FORMAT_CMD, Select(done, TO_FORMAT_EXTS)))
    requires !HasExtension(p, TO_FORMAT_EXTS) ==> shell.commands == commands1 && shell.actions == actions1
    requires HasExtension(p, TO_FORMAT_EXTS) ==>
      shell.commands == commands1 + [FORMAT_CMD + p] && shell.actions == actions1 + Echo(FORMAT_CMD + p)
    ensures Progress(shell, commands0, actions0, done + [p])
  {
    SelectSnoc(done, p, TO_FORMAT_EXTS);
    var sel := Select(done, TO_FORMAT_EXTS);
    if HasExtension(p, TO_FORMAT_EXTS) {
      var c := FORMAT_CMD + p;
      CommandsSnoc(FORMAT_CMD, sel, p);
      assert Echoes([c]) == Echo(c) by {
        assert [c][..0] == [];
      }
      LogsAppend(commands0, actions0, Commands(FORMAT_CMD, sel), [c], commands1, actions1, shell.commands, shell.actions);
    } else {
      assert Select(done + [p], TO_FORMAT_EXTS) == sel;
    }
  }

  /** The commands of a + b: those of a, then those of b. */
  lemma CommandsOfAppend(a: seq<string>, b: seq<string>)
    ensures Commands(FORMAT_CMD, Select(a + b, TO_FORMAT_EXTS))
         == Commands(FORMAT_CMD, Select(a, TO_FORMAT_EXTS)) + Commands(FORMAT_CMD, Select(b, TO_FORMAT_EXTS))
  {
    SelectAppend(a, b, TO_FORMAT_EXTS);
    CommandsAppend(FORMAT_CMD, Select(a, TO_FORMAT_EXTS), Select(b, TO_FORMAT_EXTS));
  }

  /** Two logs one after the other are the log of both command lists. */
  lemma LogsAppend(commands0: seq<string>, actions0: seq<Action>, ca: seq<string>, cb: seq<string>,
                   commands1: seq<string>, actions1: seq<Action>, commands2: seq<string>, actions2: seq<Action>)
    requires commands1 == commands0 + ca && actions1 == actions0 + Echoes(ca)
    requires commands2 == commands1 + cb && actions2 == actions1 + Echoes(cb)
    ensures commands2 == commands0 + (ca + cb) && actions2 == actions0 + Echoes(ca + cb)
  {
    EchoesAppend(ca, cb);
  }

  /** Logs made one after the other add up to the log of all their files. */
  lemma ProgressAppend(shell: Shell, commands0: seq<string>, actions0: seq<Action>, a: seq<string>, b: seq<string>,
                       commands1: seq<string>, actions1: seq<Action>)
    requires commands1 == commands0 + Commands(FORMAT_CMD, Select(a, TO_FORMAT_EXTS))
    requires actions1 == actions0 + Echoes(Commands(FORMAT_CMD, Select(a, TO_FORMAT_EXTS)))
    requires Progress(shell, commands1, actions1, b)
    ensures Progress(shell, commands0, actions0, a + b)
  {
    CommandsOfAppend(a, b);
    LogsAppend(commands0, actions0, Commands(FORMAT_CMD, Select(a, TO_FORMAT_EXTS)), Commands(FORMAT_CMD, Select(b, TO_FORMAT_EXTS)),
      commands1, actions1, shell.commands, shell.actions);
  }

  /** FormatFile on the next file keeps the log the log of every file so far. */
  method FormatNext(shell: Shell, ghost commands0: seq<string>, ghost actions0: seq<Action>, ghost done: seq<string>, absFileName: string)
    requires Progress(shell, commands0, actions0, done)
    modifies shell`actions, shell`commands
    ensures Progress(shell, commands0, actions0, done + [absFileName])
  {
    ghost var commands1 := shell.commands;
    ghost var actions1 := shell.actions;
    FormatFile(shell, absFileName);
    ProgressStep(shell, commands0, actions0, done, absFileName, commands1, actions1);
  }

  /** The files of one directory, in order. */
  method FormatDir(shell: Shell, root: string, entry: WalkEntry)
    modifies shell`actions, shell`commands
    ensures Progress(shell, old(shell.commands), old(shell.actions), DirFiles(root, entry))
  {
    var curAbsPath := Join(root, entry.dirpath);
    ghost var commands0 := shell.commands;
    ghost var actions0 := shell.actions;
    var j := 0;
    while j < |entry.filenames|
      invariant 0 <= j <= |entry.filenames|
      invariant Progress(shell, commands0, actions0, Paths(curAbsPath, entry.filenames[..j]))
    {
      var absFileName := Join(curAbsPath, entry.filenames[j]);
      FormatNext(shell, commands0, actions0, Paths(curAbsPath, entry.filenames[..j]), absFileName);
      PathsSnoc(curAbsPath, entry.filenames, j);
      j := j + 1;
    }
    assert entry.filenames[..j] == entry.filenames;
  }

  /**
   * format_srcs: one command per picked file, in walk order, each echoed
   * before and after; the statuses do not appear here because nothing
   * depends on them.
   */
  method FormatSrcs(shell: Shell, absSrcPath: string, walk: seq<WalkEntry>)
    modifies shell`actions, shell`commands
    ensures shell.commands == old(shell.commands) + SrcsCommands(absSrcPath, walk)
    ensures shell.actions == old(shell.actions) + Echoes(SrcsCommands(absSrcPath, walk))
  {
    ghost var commands0 := shell.commands;
    ghost var actions0 := shell.actions;
    var i := 0;
    while i < |walk|
      invariant 0 <= i <= |walk|
      invariant Progress(shell, commands0, actions0, WalkFiles(absSrcPath, walk[..i]))
    {
      ghost var commands1 := shell.commands;
      ghost var actions1 := shell.actions;
      FormatDir(shell, absSrcPath, walk[i]);
      ProgressAppend(shell, commands0, actions0, WalkFiles(absSrcPath, walk[..i]), DirFiles(absSrcPath, walk[i]), commands1, actions1);
      WalkFilesSnoc(absSrcPath, walk, i);
      i := i + 1;
    }
    assert walk[..i] == walk;
  }

  /** The entry point: the wind directory next to the script, given as an absolute directory. */
  method FormatWind(shell: Shell, scriptDir: string, walk: seq<WalkEntry>)
    modifies shell`actions, shell`commands
    ensures shell.commands == old(shell.commands) + SrcsCommands(Join(scriptDir, "wind"), walk)
    ensures shell.actions == old(shell.actions) + Echoes(SrcsCommands(Join(scriptDir, "wind"), walk))
  {
    FormatSrcs(shell, Join(scriptDir, "wind"), walk);
  }
}
