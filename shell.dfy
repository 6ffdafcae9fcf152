/**
 * What the build and format scripts do to the world, as a log: the lines
 * they print, the commands they run, and the directory and file steps of
 * the build. The exit status of each command is an input: the k-th
 * command run gets statuses[k], and a command past the end of that list
 * exits with 0.
 */
module Shell {
  import opened OsPath

  datatype Action =
    | Said(text: string)
    | Ran(cmd: string)
    | ChangedDir(path: string)
    | MadeDir(path: string)
    | Copied(src: string, dst: string)
    | Exited(message: string)
    | Raised(error: string)

  /** The exceptions os.mkdir raises: the parent is missing, or the path is already there. */
  const FILE_NOT_FOUND: string := "FileNotFoundError"
  const FILE_EXISTS: string := "FileExistsError"

  /** The Ran actions of a list of commands, in order. */
  function Runs(cmds: seq<string>): (r: seq<Action>)
    ensures |r| == |cmds| && forall k :: 0 <= k < |cmds| ==> r[k] == Ran(cmds[k])
  {
    seq(|cmds|, k requires 0 <= k < |cmds| => Ran(cmds[k]))
  }

  lemma RunsSnoc(cmds: seq<string>, c: string)
    ensures Runs(cmds + [c]) == Runs(cmds) + [Ran(c)]
  {
  }

  /** A run of successes followed by one more success. */
  lemma SucceededSnoc(shell: Shell, from: nat, to: nat)
    requires from <= to && shell.Succeeded(from, to) && shell.StatusAt(to) == 0
    ensures shell.Succeeded(from, to + 1)
  {
  }

  class Shell {
    const statuses: seq<int>
    /** Everything done so far, in order. */
    var actions: seq<Action>
    /** The commands run so far, in order. */
    var commands: seq<string>
    /** The paths os.path.exists reports, starting from the directories that exist when the script starts. */
    var dirs: set<string>

    constructor (statuses: seq<int>, dirs: set<string>)
      ensures this.statuses == statuses && this.dirs == dirs
      ensures actions == [] && commands == []
    {
      this.statuses := statuses;
      this.dirs := dirs;
      actions := [];
      commands := [];
    }

    /** The exit status of the k-th command run. */
    function StatusAt(k: nat): int
    {
      if k < |statuses| then statuses[k] else 0
    }

    /** Commands from..to-1 all exit with 0. */
    predicate Succeeded(from: nat, to: nat)
    {
      forall k :: from <= k < to ==> StatusAt(k) == 0
    }

    /** cmd_utils.execute and os.system: the command is logged and its status comes from the list. */
    method Execute(cmd: string) returns (status: int)
      modifies this`actions, this`commands
      ensures actions == old(actions) + [Ran(cmd)] && commands == old(commands) + [cmd]
      ensures status == StatusAt(|old(commands)|)
    {
      status := StatusAt(|commands|);
      actions := actions + [Ran(cmd)];
      commands := commands + [cmd];
    }

    /** print */
    method Print(text: string)
      modifies this`actions
      ensures actions == old(actions) + [Said(text)]
    {
      actions := actions + [Said(text)];
    }

    /** os.chdir */
    method ChangeDir(path: string)
      modifies this`actions
      ensures actions == old(actions) + [ChangedDir(path)]
    {
      actions := actions + [ChangedDir(path)];
    }

    /**
     * os.mkdir: not recursive. It creates the directory when its parent
     * exists and the path does not; otherwise it raises, and the exception
     * is the last thing logged.
     */
    method MakeDir(path: string) returns (ok: bool)
      modifies this`actions, this`dirs
      ensures ok <==> path !in old(dirs) && Parent(path) in old(dirs)
      ensures ok ==> actions == old(actions) + [MadeDir(path)] && dirs == old(dirs) + {path}
      ensures !ok ==> dirs == old(dirs)
      ensures path in old(dirs) ==> actions == old(actions) + [Raised(FILE_EXISTS)]
      ensures path !in old(dirs) && Parent(path) !in old(dirs) ==> actions == old(actions) + [Raised(FILE_NOT_FOUND)]
    {
      if path in dirs {
        actions := actions + [Raised(FILE_EXISTS)];
        return false;
      }
      if Parent(path) !in dirs {
        actions := actions + [Raised(FILE_NOT_FOUND)];
        return false;
      }
      actions := actions + [MadeDir(path)];
      dirs := dirs + {path};
      return true;
    }

    /** shutil.copy */
    method CopyFile(src: string, dst: string)
      modifies this`actions
      ensures actions == old(actions) + [Copied(src, dst)]
    {
      actions := actions + [Copied(src, dst)];
    }

    /** sys.exit with a message: the last thing the process does. */
    method Exit(message: string)
      modifies this`actions
      ensures actions == old(actions) + [Exited(message)]
    {
      actions := actions + [Exited(message)];
    }
  }
}
