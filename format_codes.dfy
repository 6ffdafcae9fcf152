/**
 * build/scripts/format_codes.py: clang-format every C and C++ file under a
 * directory, in walk order, and stop the whole process at the first
 * command that fails. The directory is taken as already absolute and
 * normalised, so os.path.abspath leaves it unchanged for the normalised
 * paths the model is given.
 */
module FormatCodes {
  import opened OsPath
  import opened DirWalk
  import opened Shell

  const TO_FORMAT_EXTS: seq<string> := [".c", ".cc", ".cxx", ".cpp", ".h", ".hpp"]
  const FORMAT_CMD: string := "clang-format -style=file -i "
  const EXIT_MESSAGE: string := "[!] exit unexpectly."

  function StartLine(dir: string): string
  {
    "format codes for " + dir + " start."
  }

  function DoneLine(dir: string): string
  {
    "format codes for " + dir + " done."
  }

  /** The commands format issues when every one of them succeeds: one per picked file, in walk order. */
  function FormatCommands(dir: string, walk: seq<WalkEntry>): (r: seq<string>)
    ensures |r| == |Select(WalkFiles(dir, walk), TO_FORMAT_EXTS)|
  {
    Commands(FORMAT_CMD, Select(WalkFiles(dir, walk), TO_FORMAT_EXTS))
  }

  /** A file gets a command iff it is in the walk and ends with one of the six extensions. */
  lemma CommandIffPicked(dir: string, walk: seq<WalkEntry>, p: string)
    ensures FORMAT_CMD + p in FormatCommands(dir, walk) <==> p in WalkFiles(dir, walk) && HasExtension(p, TO_FORMAT_EXTS)
  {
    var sel := Select(WalkFiles(dir, walk), TO_FORMAT_EXTS);
    SelectMembership(WalkFiles(dir, walk), TO_FORMAT_EXTS, p);
    if FORMAT_CMD + p in FormatCommands(dir, walk) {
      var k :| 0 <= k < |sel| && FormatCommands(dir, walk)[k] == FORMAT_CMD + p;
      assert (FORMAT_CMD + sel[k])[|FORMAT_CMD|..] == sel[k];
      assert (FORMAT_CMD + p)[|FORMAT_CMD|..] == p;
      assert p in sel;
    }
  }

  /** Commands of a prefix of the picks are a prefix of the commands. */
  lemma CommandsPrefix(cmd: string, a: seq<string>, b: seq<string>)
    requires a <= b
    ensures Commands(cmd, a) <= Commands(cmd, b)
  {
  }

  /**
   * The body of the file loop: a picked file gets its command, and a
   * failing command ends the process with the exit message.
   */
  method FormatFile(shell: Shell, absFileName: string) returns (failed: bool)
    modifies shell`actions, shell`commands
    ensures !HasExtension(absFileName, TO_FORMAT_EXTS) ==>
      !failed && shell.actions == old(shell.actions) && shell.commands == old(shell.commands)
    ensures HasExtension(absFileName, TO_FORMAT_EXTS) ==>
      && shell.commands == old(shell.commands) + [FORMAT_CMD + absFileName]
      && (failed <==> shell.StatusAt(|old(shell.commands)|) != 0)
      && shell.actions == old(shell.actions) + [Ran(FORMAT_CMD + absFileName)] + (if failed then [Exited(EXIT_MESSAGE)] else [])
  {
    failed := false;
    var needToFormat := MatchExtension(absFileName, TO_FORMAT_EXTS);
    if needToFormat {
      var status := shell.Execute(FORMAT_CMD + absFileName);
      if status != 0 {
        shell.Exit(EXIT_MESSAGE);
        failed := true;
      }
    }
  }

  /** What the loops have done once the files `done` are behind them and none failed. */
  ghost predicate Progress(shell: Shell, commands0: seq<string>, actions0: seq<Action>, done: seq<string>)
    reads shell
  {
    var cmds := Commands(FORMAT_CMD, Select(done, TO_FORMAT_EXTS));
    && shell.commands == commands0 + cmds
    && shell.actions == actions0 + Runs(cmds)
    && shell.Succeeded(|commands0|, |commands0| + |cmds|)
  }

  /** Progress over one more file that did not fail. */
  lemma ProgressStep(shell: Shell, commands0: seq<string>, actions0: seq<Action>, done: seq<string>, p: string,
                     commands1: seq<string>, actions1: seq<Action>)
    requires commands1 == commands0 + Commands(FORMAT_CMD, Select(done, TO_FORMAT_EXTS))
    requires actions1 == actions0 + Runs(Commands(FORMAT_CMD, Select(done, TO_FORMAT_EXTS)))
    requires shell.Succeeded(|commands0|, |commands1|)
    requires !HasExtension(p, TO_FORMAT_EXTS) ==> shell.commands == commands1 && shell.actions == actions1
    requires HasExtension(p, TO_FORMAT_EXTS) ==>
      && shell.commands == commands1 + [FORMAT_CMD + p] && shell.actions == actions1 + [Ran(FORMAT_CMD + p)]
      && shell.StatusAt(|commands1|) == 0
    ensures Progress(shell, commands0, actions0, done + [p])
  {
    SelectSnoc(done, p, TO_FORMAT_EXTS);
    var sel := Select(done, TO_FORMAT_EXTS);
    if HasExtension(p, TO_FORMAT_EXTS) {
      CommandsSnoc(FORMAT_CMD, sel, p);
      RanOneMore(shell, commands0, actions0, Commands(FORMAT_CMD, sel), FORMAT_CMD + p, commands1, actions1);
    }
  }

  /** A successful run of cmds, then one more command that succeeded, is a successful run of cmds + [c]. */
  lemma RanOneMore(shell: Shell, commands0: seq<string>, actions0: seq<Action>, cmds: seq<string>, c: string,
                   commands1: seq<string>, actions1: seq<Action>)
    requires commands1 == commands0 + cmds && actions1 == actions0 + Runs(cmds)
    requires shell.Succeeded(|commands0|, |commands1|)
    requires shell.commands == commands1 + [c] && shell.actions == actions1 + [Ran(c)]
    requires shell.StatusAt(|commands1|) == 0
    ensures shell.commands == commands0 + (cmds + [c]) && shell.actions == actions0 + Runs(cmds + [c])
    ensures shell.Succeeded(|commands0|, |commands0| + |cmds + [c]|)
  {
    RunsSnoc(cmds, c);
    SucceededSnoc(shell, |commands0|, |commands1|);
    assert shell.actions == actions0 + (Runs(cmds) + [Ran(c)]);
  }

  /**
   * The process stopped at a failure: it ran the first n of cmds, the
   * first n - 1 succeeded, the n-th failed, and the exit message came last.
   */
  ghost predicate Stopped(shell: Shell, commands0: seq<string>, actions0: seq<Action>, cmds: seq<string>)
    reads shell
  {
    var n := |shell.commands| - |commands0|;
    && 1 <= n <= |cmds| && shell.commands == commands0 + cmds[..n]
    && shell.Succeeded(|commands0|, |commands0| + n - 1) && shell.StatusAt(|commands0| + n - 1) != 0
    && shell.actions == actions0 + Runs(cmds[..n]) + [Exited(EXIT_MESSAGE)]
  }

  /** The commands of the files before and including a failing one are a prefix of all the commands. */
  lemma FailurePrefix(root: string, walk: seq<WalkEntry>, i: nat, j: nat, done: seq<string>)
    requires i < |walk| && j < |walk[i].filenames|
    requires done == WalkFiles(root, walk[..i]) + Paths(Join(root, walk[i].dirpath), walk[i].filenames[..j + 1])
    ensures Commands(FORMAT_CMD, Select(done, TO_FORMAT_EXTS)) <= FormatCommands(root, walk)
  {
    WalkFilesPrefix(root, walk, i, j + 1);
    SelectPrefix(done, WalkFiles(root, walk), TO_FORMAT_EXTS);
    CommandsPrefix(FORMAT_CMD, Select(done, TO_FORMAT_EXTS), Select(WalkFiles(root, walk), TO_FORMAT_EXTS));
  }

  /** The command of a picked file j of directory i comes right after those of the files before it. */
  lemma FailureCommands(root: string, walk: seq<WalkEntry>, i: nat, j: nat)
    requires i < |walk| && j < |walk[i].filenames|
    requires HasExtension(Join(Join(root, walk[i].dirpath), walk[i].filenames[j]), TO_FORMAT_EXTS)
    ensures var dir := Join(root, walk[i].dirpath);
      var done := WalkFiles(root, walk[..i]) + Paths(dir, walk[i].filenames[..j]);
      Commands(FORMAT_CMD, Select(done, TO_FORMAT_EXTS)) + [FORMAT_CMD + Join(dir, walk[i].filenames[j])] <= FormatCommands(root, walk)
  {
    var dir := Join(root, walk[i].dirpath);
    var done := WalkFiles(root, walk[..i]) + Paths(dir, walk[i].filenames[..j]);
    var p := Join(dir, walk[i].filenames[j]);
    var sel := Select(done, TO_FORMAT_EXTS);
    PathsSnoc(dir, walk[i].filenames, j);
    assert done + [p] == WalkFiles(root, walk[..i]) + Paths(dir, walk[i].filenames[..j + 1]);
    FailurePrefix(root, walk, i, j, done + [p]);
    SelectSnoc(done, p, TO_FORMAT_EXTS);
    CommandsSnoc(FORMAT_CMD, sel, p);
  }

  /** A failing command after a run of successes, all in the order of cmds, is where the process stops. */
  lemma FailureStops(shell: Shell, commands0: seq<string>, actions0: seq<Action>, all: seq<string>,
                     cmds: seq<string>, c: string, commands1: seq<string>, actions1: seq<Action>)
    requires cmds + [c] <= all
    requires commands1 == commands0 + cmds && actions1 == actions0 + Runs(cmds)
    requires shell.Succeeded(|commands0|, |commands1|)
    requires shell.commands == commands1 + [c] && shell.StatusAt(|commands1|) != 0
    requires shell.actions == actions1 + [Ran(c)] + [Exited(EXIT_MESSAGE)]
    ensures Stopped(shell, commands0, actions0, all)
  {
    var n := |cmds| + 1;
    assert all[..n] == cmds + [c];
    RunsSnoc(cmds, c);
    assert shell.commands == commands0 + all[..n];
    assert shell.actions == actions0 + Runs(all[..n]) + [Exited(EXIT_MESSAGE)];
  }

  /** File j of directory i, after the files before it. */
  method FormatNext(shell: Shell, root: string, walk: seq<WalkEntry>, i: nat, j: nat,
                    ghost commands0: seq<string>, ghost actions0: seq<Action>, ghost done: seq<string>) returns (failed: bool)
    requires i < |walk| && j < |walk[i].filenames|
    requires done == WalkFiles(root, walk[..i]) + Paths(Join(root, walk[i].dirpath), walk[i].filenames[..j])
    requires Progress(shell, commands0, actions0, done)
    modifies shell`actions, shell`commands
    ensures !failed ==> Progress(shell, commands0, actions0, done + [Join(Join(root, walk[i].dirpath), walk[i].filenames[j])])
    ensures failed ==> Stopped(shell, commands0, actions0, FormatCommands(root, walk))
  {
    var absFileName := Join(Join(root, walk[i].dirpath), walk[i].filenames[j]);
    ghost var commands1 := shell.commands;
    ghost var actions1 := shell.actions;
    failed := FormatFile(shell, absFileName);
    if failed {
      FailureCommands(root, walk, i, j);
      FailureStops(shell, commands0, actions0, FormatCommands(root, walk),
        Commands(FORMAT_CMD, Select(done, TO_FORMAT_EXTS)), FORMAT_CMD + absFileName, commands1, actions1);
    } else {
      ProgressStep(shell, commands0, actions0, done, absFileName, commands1, actions1);
    }
  }

  /** The files of directory i, after the files of the directories before it. */
  method FormatDir(shell: Shell, root: string, walk: seq<WalkEntry>, i: nat,
                   ghost commands0: seq<string>, ghost actions0: seq<Action>) returns (failed: bool)
    requires i < |walk|
    requires Progress(shell, commands0, actions0, WalkFiles(root, walk[..i]))
    modifies shell`actions, shell`commands
    ensures !failed ==> Progress(shell, commands0, actions0, WalkFiles(root, walk[..i + 1]))
    ensures failed ==> Stopped(shell, commands0, actions0, FormatCommands(root, walk))
  {
    var entry := walk[i];
    var curAbsPath := Join(root, entry.dirpath);
    ghost var done := WalkFiles(root, walk[..i]);
    var j := 0;
    while j < |entry.filenames|
      invariant 0 <= j <= |entry.filenames|
      invariant done == WalkFiles(root, walk[..i]) + Paths(curAbsPath, entry.filenames[..j])
      invariant Progress(shell, commands0, actions0, done)
    {
      failed := FormatNext(shell, root, walk, i, j, commands0, actions0, done);
      if failed {
        return;
      }
      PathsSnoc(curAbsPath, entry.filenames, j);
      done := done + [Join(curAbsPath, entry.filenames[j])];
      j := j + 1;
    }
    assert entry.filenames[..j] == entry.filenames;
    WalkFilesSnoc(root, walk, i);
    failed := false;
  }

  /**
   * format: print the start line, then run one command per picked file in
   * walk order. The first failing command ends the process with the exit
   * message, so no later file is formatted and the done line is not
   * printed; when none fails every command ran and succeeded, and the done
   * line follows the last one.
   */
  method Format(shell: Shell, sourceDir: string, walk: seq<WalkEntry>) returns (exited: bool)
    modifies shell`actions, shell`commands
    ensures exited ==>
      Stopped(shell, old(shell.commands), old(shell.actions) + [Said(StartLine(sourceDir))], FormatCommands(sourceDir, walk))
    ensures !exited ==>
      var cmds := FormatCommands(sourceDir, walk);
      && shell.commands == old(shell.commands) + cmds
      && shell.Succeeded(|old(shell.commands)|, |shell.commands|)
      && shell.actions == old(shell.actions) + [Said(StartLine(sourceDir))] + Runs(cmds) + [Said(DoneLine(sourceDir))]
  {
    shell.Print(StartLine(sourceDir));
    var root := sourceDir;
    ghost var commands0 := shell.commands;
    ghost var actions0 := shell.actions;
    var i := 0;
    while i < |walk|
      invariant 0 <= i <= |walk|
      invariant Progress(shell, commands0, actions0, WalkFiles(root, walk[..i]))
      invariant shell.commands[..|commands0|] == commands0 && shell.actions[..|actions0|] == actions0
    {
      var failed := FormatDir(shell, root, walk, i, commands0, actions0);
      if failed {
        return true;
      }
      i := i + 1;
    }
    assert walk[..i] == walk;
    shell.Print(DoneLine(sourceDir));
    exited := false;
  }
}
