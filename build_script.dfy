/**
 * build/scripts/build.py: read the command-line options, then either
 * format the wind and samples sources or build gn and then the wind
 * project with it. getopt's parsing is not modelled: the options are its
 * result, (name, value) pairs in command-line order. os.cpu_count() is a
 * parameter, the script directory is given as an absolute path, and the
 * commands' exit statuses come from the shell.
 */
module BuildScript {
  import opened Wrappers
  import opened Numerals
  import opened OsPath
  import opened DirWalk
  import opened Shell
  import FormatCodes
  import Seqs

  const DEFAULT_BUILD_TYPE: string := "Debug"

  const HELP_LINES: seq<string> := [
    "-h --help: print helps.",
    "-j --jobs: jobs num to build project.",
    "-b --build-type: build type, Debug or Release.",
    "-f --format-codes: format oewm source codes according to .clang-format you defined in project root."
  ]

  /** print_helps */
  method PrintHelps(shell: Shell)
    modifies shell`actions
    ensures shell.actions == old(shell.actions) + [Said(HELP_LINES[0]), Said(HELP_LINES[1]), Said(HELP_LINES[2]), Said(HELP_LINES[3])]
  {
    shell.Print(HELP_LINES[0]);
    shell.Print(HELP_LINES[1]);
    shell.Print(HELP_LINES[2]);
    shell.Print(HELP_LINES[3]);
  }

  // str.capitalize, for ASCII text.

  function Upper(c: char): char
  {
    if 'a' <= c <= 'z' then (c as int - 32) as char else c
  }

  function Lower(c: char): char
  {
    if 'A' <= c <= 'Z' then (c as int + 32) as char else c
  }

  function LowerAll(s: string): (t: string)
    ensures |t| == |s| && forall i :: 0 <= i < |s| ==> t[i] == Lower(s[i])
  {
    seq(|s|, i requires 0 <= i < |s| => Lower(s[i]))
  }

  /** str.capitalize: the first character in upper case, the rest in lower case. */
  function Capitalize(s: string): (t: string)
    ensures |t| == |s|
  {
    if s == [] then [] else [Upper(s[0])] + LowerAll(s[1..])
  }

  /** Equal up to the case of ASCII letters. */
  predicate SameLetters(a: string, b: string)
  {
    |a| == |b| && forall i :: 0 <= i < |a| ==> Lower(a[i]) == Lower(b[i])
  }

  /** Capitalizing twice changes nothing more. */
  lemma CapitalizeIdempotent(s: string)
    ensures Capitalize(Capitalize(s)) == Capitalize(s)
  {
    if s != [] {
      var t := Capitalize(s);
      assert t[1..] == LowerAll(s[1..]);
      assert LowerAll(t[1..]) == t[1..];
    }
  }

  /** Upper-casing c gives the upper-case form of a letter exactly when lower-casing c gives its lower-case form. */
  lemma UpperIff(c: char, low: char)
    requires 'a' <= low <= 'z'
    ensures Upper(c) == Upper(low) <==> Lower(c) == low
  {
  }

  /** Two texts capitalize alike iff they agree up to case, against a word that starts with a letter. */
  lemma CapitalizeSame(s: string, w: string)
    requires w != [] && 'a' <= w[0] <= 'z'
    ensures Capitalize(s) == Capitalize(w) <==> SameLetters(s, w)
  {
    if |s| == |w| {
      var t := Capitalize(s);
      var u := Capitalize(w);
      UpperIff(s[0], w[0]);
      if t == u {
        forall i | 0 <= i < |s|
          ensures Lower(s[i]) == Lower(w[i])
        {
          assert t[i] == u[i];
        }
      }
      if SameLetters(s, w) {
        forall i | 0 <= i < |s|
          ensures t[i] == u[i]
        {
        }
      }
    }
  }

  /**
   * -b accepts exactly the spellings of debug and release in any mix of
   * cases: capitalize turns them into "Debug" and "Release" and nothing
   * else into either.
   */
  lemma CapitalizeAccepts(s: string)
    ensures Capitalize(s) == "Debug" <==> SameLetters(s, "debug")
    ensures Capitalize(s) == "Release" <==> SameLetters(s, "release")
  {
    CapitalizedWords();
    CapitalizeSame(s, "debug");
    CapitalizeSame(s, "release");
  }

  lemma CapitalizedWords()
    ensures Capitalize("debug") == "Debug" && Capitalize("release") == "Release"
  {
    assert LowerAll("ebug") == "ebug";
    assert LowerAll("elease") == "elease";
  }

  // int() on a string.

  /** The characters str.strip removes by default, for ASCII text. */
  predicate PySpace(c: char)
  {
    c == ' ' || '\t' <= c <= '\r' || '\U{1C}' <= c <= '\U{1F}'
  }

  function StripLeft(s: string): (t: string)
    ensures t != [] ==> !PySpace(t[0])
  {
    if s != [] && PySpace(s[0]) then StripLeft(s[1..]) else s
  }

  function StripRight(s: string): (t: string)
    ensures |t| <= |s|
    ensures t != [] ==> !PySpace(t[|t| - 1]) && t[0] == s[0]
  {
    if s != [] && PySpace(s[|s| - 1]) then StripRight(s[..|s| - 1]) else s
  }

  predicate AllDecimal(s: string)
  {
    forall i :: 0 <= i < |s| ==> IsDigit(s[i])
  }

  /** str.strip: white space removed from both ends. */
  function Strip(s: string): (t: string)
    ensures t != [] ==> !PySpace(t[0]) && !PySpace(t[|t| - 1])
  {
    StripRight(StripLeft(s))
  }

  /**
   * int(text): surrounding white space, an optional sign, and at least one
   * decimal digit; anything else raises ValueError (None).
   */
  function PyInt(text: string): (r: Option<int>)
    ensures text == [] ==> r == None
  {
    SignedInt(Strip(text))
  }

  /** A minus sign's effect on the value of the digits after it. */
  function Negated(v: int): int
  {
    0 - v
  }

  /** int() on text already stripped: an optional sign and at least one decimal digit. */
  function SignedInt(t: string): Option<int>
  {
    if t != [] && (t[0] == '-' || t[0] == '+') then
      var digits := t[1..];
      if digits != [] && AllDecimal(digits) then
        Some(if t[0] == '-' then Negated(Value(digits, 10, DECIMAL)) else Value(digits, 10, DECIMAL))
      else None
    else if t != [] && AllDecimal(t) then Some(Value(t, 10, DECIMAL))
    else None
  }

  /** Text with no white space at either end is read as it is. */
  lemma PyIntOfStripped(s: string)
    requires s != [] && !PySpace(s[0]) && !PySpace(s[|s| - 1])
    ensures PyInt(s) == SignedInt(s)
  {
    assert StripLeft(s) == s;
    assert StripRight(s) == s;
  }

  /** What "%d" prints for a number, int() reads back as that number. */
  lemma PyIntOfSignedDec(n: int)
    ensures PyInt(SignedDec(n)) == Some(n)
  {
    var m := if n < 0 then -n else n;
    DecIsDigits(m);
    DecimalIsTable();
    ValueOfText(m, 10, DECIMAL);
    PyIntOfDigits(Dec(m));
  }

  /** Digits alone, or after a minus sign, read as their value or its negation. */
  lemma PyIntOfDigits(t: string)
    requires t != [] && forall i :: 0 <= i < |t| ==> IsDigit(t[i])
    ensures PyInt(t) == Some(Value(t, 10, DECIMAL))
    ensures PyInt("-" + t) == Some(Negated(Value(t, 10, DECIMAL)))
  {
    PyIntOfUnsigned(t);
    PyIntOfNegative(t);
  }

  lemma PyIntOfUnsigned(t: string)
    requires t != [] && forall i :: 0 <= i < |t| ==> IsDigit(t[i])
    ensures PyInt(t) == Some(Value(t, 10, DECIMAL))
  {
    assert !PySpace(t[0]) && !PySpace(t[|t| - 1]);
    PyIntOfStripped(t);
    SignedIntOfUnsigned(t);
  }

  lemma SignedIntOfUnsigned(t: string)
    requires t != [] && IsDigit(t[0]) && AllDecimal(t)
    ensures SignedInt(t) == Some(Value(t, 10, DECIMAL))
  {
  }

  lemma PyIntOfNegative(t: string)
    requires t != [] && forall i :: 0 <= i < |t| ==> IsDigit(t[i])
    ensures PyInt("-" + t) == Some(Negated(Value(t, 10, DECIMAL)))
  {
    var s := "-" + t;
    assert s[|s| - 1] == t[|t| - 1] && !PySpace(s[|s| - 1]);
    PyIntOfStripped(s);
    assert s[1..] == t;
    assert AllDecimal(t);
    SignedIntOfNegative(s);
  }

  lemma SignedIntOfNegative(s: string)
    requires s != [] && s[0] == '-' && s[1..] != [] && AllDecimal(s[1..])
    ensures SignedInt(s) == Some(Negated(Value(s[1..], 10, DECIMAL)))
  {
  }

  /** A value with no digits is refused: "-j four" raises ValueError. */
  lemma PyIntRefusesWords()
    ensures PyInt("four") == None && PyInt(" ") == None && PyInt("-") == None
  {
    assert !IsDigit("four"[0]);
    assert StripLeft(" ") == [];
  }

  // The options.

  datatype Opt = Opt(name: string, value: string)

  /** jobs_num, build_type and only_format. */
  datatype Settings = Settings(jobs: int, buildType: string, onlyFormat: bool)

  /** Where an option leaves main: going on with new settings, or returning. */
  datatype Step =
    | Continue(settings: Settings)
    | ShowHelp
    | RejectType(shown: string)
    | BadJobs(text: string)

  predicate IsBuildType(t: string)
  {
    t == "Debug" || t == "Release"
  }

  /**
   * One pass of main's option loop, with the long options compared under
   * the names they are declared with (--build-type, --format-codes).
   */
  function ApplyOption(s: Settings, o: Opt): (step: Step)
    ensures step.Continue? && IsBuildType(s.buildType) ==> IsBuildType(step.settings.buildType)
    ensures o.name == "-h" || o.name == "--help" <==> step == ShowHelp
  {
    if o.name == "-h" || o.name == "--help" then ShowHelp
    else if o.name == "-j" || o.name == "--jobs" then
      match PyInt(o.value)
      case None => BadJobs(o.value)
      case Some(n) => Continue(s.(jobs := n))
    else if o.name == "-b" || o.name == "--build-type" then
      var t := Capitalize(o.value);
      if IsBuildType(t) then Continue(s.(buildType := t)) else RejectType(t)
    else if o.name == "-f" || o.name == "--format-codes" then Continue(s.(onlyFormat := true))
    else Continue(s)
  }

  /** The same pass as written: the long options are compared as --build_type and --format_codes. */
  function ApplyOptionAsWritten(s: Settings, o: Opt): (step: Step)
    ensures o.name == "--build-type" || o.name == "--format-codes" ==> step == Continue(s)
  {
    if o.name == "-h" || o.name == "--help" then ShowHelp
    else if o.name == "-j" || o.name == "--jobs" then
      match PyInt(o.value)
      case None => BadJobs(o.value)
      case Some(n) => Continue(s.(jobs := n))
    else if o.name == "-b" || o.name == "--build_type" then
      var t := Capitalize(o.value);
      if IsBuildType(t) then Continue(s.(buildType := t)) else RejectType(t)
    else if o.name == "-f" || o.name == "--format_codes" then Continue(s.(onlyFormat := true))
    else Continue(s)
  }

  /**
   * getopt returns --build-type and --format-codes under those names, which
   * the written comparisons never match: both options are dropped, so an
   * invalid build type is not even reported.
   */
  lemma LongOptionsIgnoredAsWritten(s: Settings, v: string)
    ensures ApplyOptionAsWritten(s, Opt("--build-type", v)) == Continue(s)
    ensures ApplyOptionAsWritten(s, Opt("--format-codes", "")) == Continue(s)
    ensures ApplyOption(s, Opt("--format-codes", "")) == Continue(s.(onlyFormat := true))
  {
  }

  /** The counterexample: --build-type release builds Debug as written; the declared option selects Release. */
  lemma BuildTypeReleaseDropped()
    ensures ApplyOptionAsWritten(Settings(8, DEFAULT_BUILD_TYPE, false), Opt("--build-type", "release"))
         == Continue(Settings(8, "Debug", false))
    ensures ApplyOption(Settings(8, DEFAULT_BUILD_TYPE, false), Opt("--build-type", "release"))
         == Continue(Settings(8, "Release", false))
  {
    assert Capitalize("release") == "Release";
  }

  /** Apart from the two long option names, the written and the corrected passes agree. */
  lemma AsWrittenAgreesOtherwise(s: Settings, o: Opt)
    requires o.name != "--build-type" && o.name != "--format-codes"
    requires o.name != "--build_type" && o.name != "--format_codes"
    ensures ApplyOptionAsWritten(s, o) == ApplyOption(s, o)
  {
  }

  /** main's option loop from left to right: it stops at the first option that returns. */
  function ApplyOptions(s: Settings, opts: seq<Opt>): Step
    decreases |opts|
  {
    if opts == [] then Continue(s)
    else match ApplyOptions(s, opts[..|opts| - 1])
      case Continue(t) => ApplyOption(t, opts[|opts| - 1])
      case stop => stop
  }

  /** One more option after the options so far went on with t is one pass from t. */
  lemma ApplyOptionsSnoc(s: Settings, opts: seq<Opt>, i: nat, t: Settings)
    requires i < |opts| && ApplyOptions(s, opts[..i]) == Continue(t)
    ensures ApplyOptions(s, opts[..i + 1]) == ApplyOption(t, opts[i])
  {
    assert opts[..i + 1][..i] == opts[..i];
  }

  /** Once an option has returned, the options after it are never looked at. */
  lemma {:induction false} StopIsFinal(s: Settings, a: seq<Opt>, b: seq<Opt>)
    requires !ApplyOptions(s, a).Continue?
    ensures ApplyOptions(s, a + b) == ApplyOptions(s, a)
    decreases |b|
  {
    if b == [] {
      assert a + b == a;
    } else {
      var b' := b[..|b| - 1];
      assert (a + b)[..|a + b| - 1] == a + b';
      StopIsFinal(s, a, b');
    }
  }

  /** -h first means help, whatever follows. */
  lemma HelpFirst(s: Settings, rest: seq<Opt>)
    ensures ApplyOptions(s, [Opt("-h", "")] + rest) == ShowHelp
  {
    assert ApplyOptions(s, [Opt("-h", "")]) == ShowHelp by {
      assert [Opt("-h", "")][..0] == [];
    }
    StopIsFinal(s, [Opt("-h", "")], rest);
  }

  /** Starting from a valid build type, main only ever goes on with a valid one. */
  lemma {:induction false} BuildTypeStaysValid(s: Settings, opts: seq<Opt>)
    requires IsBuildType(s.buildType)
    ensures ApplyOptions(s, opts).Continue? ==> IsBuildType(ApplyOptions(s, opts).settings.buildType)
    decreases |opts|
  {
    if opts != [] {
      BuildTypeStaysValid(s, opts[..|opts| - 1]);
    }
  }

  function RejectLine(buildType: string): string
  {
    "build_type " + buildType + " is not correct, should be Debug or Release."
  }

  /** What the option loop prints before main returns from it. */
  function StepOutput(step: Step): seq<Action>
  {
    match step
    case ShowHelp => [Said(HELP_LINES[0]), Said(HELP_LINES[1]), Said(HELP_LINES[2]), Said(HELP_LINES[3])]
    case RejectType(shown) => [Said(RejectLine(shown))]
    case _ => []
  }

  /**
   * main's option loop: jobs_num starts at os.cpu_count(), build_type at
   * Debug and only_format at false; each option updates them or makes
   * main return, after printing the help or the rejected build type. A
   * -j value int() refuses raises ValueError out of main.
   */
  method ParseOptions(shell: Shell, opts: seq<Opt>, cpuCount: int) returns (step: Step)
    modifies shell`actions
    ensures step == ApplyOptions(Settings(cpuCount, DEFAULT_BUILD_TYPE, false), opts)
    ensures shell.actions == old(shell.actions) + StepOutput(step)
  {
    var settings := Settings(cpuCount, DEFAULT_BUILD_TYPE, false);
    ghost var init := settings;
    var i := 0;
    while i < |opts|
      invariant 0 <= i <= |opts|
      invariant ApplyOptions(init, opts[..i]) == Continue(settings)
      invariant shell.actions == old(shell.actions)
    {
      var next := OptionPass(shell, settings, opts[i]);
      ApplyOptionsSnoc(init, opts, i, settings);
      if !next.Continue? {
        StopIsFinal(init, opts[..i + 1], opts[i + 1..]);
        assert opts[..i + 1] + opts[i + 1..] == opts;
        return next;
      }
      settings := next.settings;
      i := i + 1;
    }
    assert opts[..i] == opts;
    step := Continue(settings);
  }

  /** The body of main's option loop for one option: it prints only when it makes main return. */
  method OptionPass(shell: Shell, settings: Settings, opt: Opt) returns (step: Step)
    modifies shell`actions
    ensures step == ApplyOption(settings, opt)
    ensures shell.actions == old(shell.actions) + StepOutput(step)
  {
    var jobsNum, buildType, onlyFormat := settings.jobs, settings.buildType, settings.onlyFormat;
    if opt.name == "-h" || opt.name == "--help" {
      PrintHelps(shell);
      return ShowHelp;
    }
    if opt.name == "-j" || opt.name == "--jobs" {
      var n := PyInt(opt.value);
      if n.None? {
        return BadJobs(opt.value);
      }
      jobsNum := n.value;
    }
    if opt.name == "-b" || opt.name == "--build-type" {
      buildType := Capitalize(opt.value);
      if !IsBuildType(buildType) {
        shell.Print(RejectLine(buildType));
        return RejectType(buildType);
      }
    }
    if opt.name == "-f" || opt.name == "--format-codes" {
      onlyFormat := true;
    }
    step := Continue(Settings(jobsNum, buildType, onlyFormat));
  }

  // The build.

  const GN_GEN_COMMAND: string := "python build/gen.py"

  /** ninja in the gn sources, with the job count after "-j ". */
  function GnNinjaCommand(jobs: int): (c: string)
    ensures |c| > 16 && c[..16] == "ninja -C out -j "
  {
    "ninja -C out -j " + SignedDec(jobs)
  }

  /** is_debug: "true" exactly for the build types debug and Debug. */
  function IsDebugText(buildType: string): (t: string)
    ensures t == "true" <==> buildType == "debug" || buildType == "Debug"
    ensures t == "true" || t == "false"
  {
    if buildType == "debug" || buildType == "Debug" then "true" else "false"
  }

  /** gn gen with the built gn binary; is_debug is true exactly for the debug build types. */
  function WindGenCommand(gnBinary: string, windOut: string, buildType: string): (c: string)
    ensures var k := |gnBinary| + |windOut| + 24;
      && |c| > k + 4 && c[..k] == gnBinary + " gen " + windOut + "/ --args='is_debug="
      && (c[k..k + 4] == "true" <==> buildType == "debug" || buildType == "Debug")
  {
    var prefix := gnBinary + " gen " + windOut + "/ --args='is_debug=";
    var c := prefix + IsDebugText(buildType) + "' --export-compile-commands";
    assert c[|prefix|..|prefix| + 4] == IsDebugText(buildType)[..4];
    assert "false"[..4][3] != "true"[3];
    c
  }

  /** ninja in the wind output directory, with the job count after "-j ". */
  function WindNinjaCommand(windOut: string, jobs: int): (c: string)
    ensures var k := |windOut| + 13; |c| > k && c[..k] == "ninja -C " + windOut + " -j "
  {
    "ninja -C " + windOut + " -j " + SignedDec(jobs)
  }

  /** Both ninja commands carry the job count as text that int() reads back as that count. */
  lemma NinjaJobsReadBack(windOut: string, jobs: int)
    ensures PyInt(GnNinjaCommand(jobs)[16..]) == Some(jobs)
    ensures PyInt(WindNinjaCommand(windOut, jobs)[|windOut| + 13..]) == Some(jobs)
  {
    PyIntOfSignedDec(jobs);
    assert GnNinjaCommand(jobs)[16..] == SignedDec(jobs);
    var prefix := "ninja -C " + windOut + " -j ";
    assert WindNinjaCommand(windOut, jobs)[|prefix|..] == SignedDec(jobs);
  }

  function OutPath(root: string, buildType: string): string
  {
    Join(Join(root, "out"), buildType)
  }

  function GnOutPath(root: string, buildType: string): string
  {
    Join(OutPath(root, buildType), "gn")
  }

  function WindOutPath(root: string, buildType: string): string
  {
    Join(OutPath(root, buildType), "wind")
  }

  /** The four commands of a build, in order. */
  function Pipeline(root: string, buildType: string, jobs: int): (p: seq<string>)
    ensures |p| == 4
  {
    StageCommands(GnOutPath(root, buildType), WindOutPath(root, buildType), buildType, jobs)
  }

  /** The commands build_gn and build_wind run, given gn's and wind's output directories. */
  function StageCommands(gnOut: string, windOut: string, buildType: string, jobs: int): (p: seq<string>)
    ensures |p| == 4
  {
    [ GN_GEN_COMMAND,
      GnNinjaCommand(jobs),
      WindGenCommand(Join(gnOut, "gn"), windOut, buildType),
      WindNinjaCommand(windOut, jobs) ]
  }

  /**
   * Under a root directory, gn goes to <root>/out/<type>/gn and the wind
   * build to <root>/out/<type>/wind; under the filesystem root there is no
   * '/' doubled.
   */
  lemma OutputPaths(root: string, buildType: string)
    requires IsDir(root) && IsName(buildType)
    ensures GnOutPath(root, buildType) == DirPrefix(root) + "out" + "/" + buildType + "/" + "gn"
    ensures WindOutPath(root, buildType) == DirPrefix(root) + "out" + "/" + buildType + "/" + "wind"
    ensures Join(GnOutPath(root, buildType), "gn") == DirPrefix(root) + "out" + "/" + buildType + "/" + "gn" + "/" + "gn"
  {
    var out := DirPrefix(root) + "out";
    JoinName(root, "out");
    JoinName(out, buildType);
    var typed := out + "/" + buildType;
    JoinName(typed, "gn");
    JoinName(typed, "wind");
    JoinName(typed + "/" + "gn", "gn");
  }

  /** The parent build_all's mkdir needs is <root>/out/<type>, which nothing in the script creates. */
  lemma GnOutParent(root: string, buildType: string)
    requires IsDir(root) && IsName(buildType)
    ensures Parent(GnOutPath(root, buildType)) == OutPath(root, buildType)
  {
    JoinName(root, "out");
    JoinName(Join(root, "out"), buildType);
    ParentOfJoin(OutPath(root, buildType), "gn");
  }

  /**
   * build_gn: enter the gn sources, run gen.py and then ninja, returning -1
   * at the first failure; after both succeed, create the output directory
   * if it is missing and copy the gn binary into it. The mkdir raises when
   * the directory's parent is missing, and the exception leaves build_gn.
   */
  method BuildGn(shell: Shell, gnSource: string, gnOut: string, jobs: int) returns (r: int, raised: bool)
    modifies shell`actions, shell`commands, shell`dirs
    ensures r == 0 || r == -1
    ensures raised <==>
      && shell.StatusAt(|old(shell.commands)|) == 0 && shell.StatusAt(|old(shell.commands)| + 1) == 0
      && gnOut !in old(shell.dirs) && Parent(gnOut) !in old(shell.dirs)
    ensures r == 0 <==> !raised && shell.StatusAt(|old(shell.commands)|) == 0 && shell.StatusAt(|old(shell.commands)| + 1) == 0
    ensures shell.StatusAt(|old(shell.commands)|) != 0 ==> shell.commands == old(shell.commands) + [GN_GEN_COMMAND]
    ensures shell.StatusAt(|old(shell.commands)|) == 0 ==>
      shell.commands == old(shell.commands) + [GN_GEN_COMMAND, GnNinjaCommand(jobs)]
    ensures r != 0 ==> shell.dirs == old(shell.dirs)
    ensures r == 0 ==> shell.dirs == old(shell.dirs) + {gnOut}
    ensures r != 0 && !raised ==>
      shell.actions == old(shell.actions) + [Said("Entering " + gnSource), ChangedDir(gnSource)]
        + Runs(shell.commands[|old(shell.commands)|..])
    ensures raised ==>
      shell.actions == old(shell.actions) + [Said("Entering " + gnSource), ChangedDir(gnSource)]
        + [Ran(GN_GEN_COMMAND), Ran(GnNinjaCommand(jobs)), Raised(FILE_NOT_FOUND)]
    ensures r == 0 ==>
      shell.actions == old(shell.actions) + [Said("Entering " + gnSource), ChangedDir(gnSource)]
        + [Ran(GN_GEN_COMMAND), Ran(GnNinjaCommand(jobs))] + InstallLog(gnOut, gnOut in old(shell.dirs))
  {
    var ok := GnCommands(shell, gnSource, jobs);
    if !ok {
      return -1, false;
    }
    ghost var c1 := shell.commands;
    assert c1[|old(shell.commands)|..] == [GN_GEN_COMMAND, GnNinjaCommand(jobs)];
    assert Runs([GN_GEN_COMMAND, GnNinjaCommand(jobs)]) == [Ran(GN_GEN_COMMAND), Ran(GnNinjaCommand(jobs))];
    var installed := InstallGn(shell, gnOut);
    if !installed {
      return -1, true;
    }
    return 0, false;
  }

  /** The commands of build_gn: enter the gn sources, then gen.py and, when it succeeds, ninja. */
  method GnCommands(shell: Shell, gnSource: string, jobs: int) returns (ok: bool)
    modifies shell`actions, shell`commands
    ensures ok <==> shell.StatusAt(|old(shell.commands)|) == 0 && shell.StatusAt(|old(shell.commands)| + 1) == 0
    ensures shell.StatusAt(|old(shell.commands)|) != 0 ==> shell.commands == old(shell.commands) + [GN_GEN_COMMAND]
    ensures shell.StatusAt(|old(shell.commands)|) == 0 ==>
      shell.commands == old(shell.commands) + [GN_GEN_COMMAND, GnNinjaCommand(jobs)]
    ensures shell.actions == old(shell.actions) + [Said("Entering " + gnSource), ChangedDir(gnSource)]
      + Runs(shell.commands[|old(shell.commands)|..])
  {
    shell.Print("Entering " + gnSource);
    shell.ChangeDir(gnSource);
    ghost var c1 := shell.commands;
    var status := shell.Execute(GN_GEN_COMMAND);
    if status != 0 {
      assert shell.commands[|c1|..] == [GN_GEN_COMMAND];
      return false;
    }
    status := shell.Execute(GnNinjaCommand(jobs));
    assert shell.commands[|c1|..] == [GN_GEN_COMMAND, GnNinjaCommand(jobs)];
    ok := status == 0;
  }

  /** Where ninja leaves the gn binary inside the gn sources. */
  const GN_BUILT: string := "out/gn"

  /** What the end of build_gn does: mkdir when the directory is missing, then the copy. */
  function InstallLog(gnOut: string, existed: bool): seq<Action>
  {
    (if existed then [] else [MadeDir(gnOut)]) + [Copied(GN_BUILT, Join(gnOut, "gn"))]
  }

  /**
   * The end of build_gn: create the output directory if it is missing, then
   * copy the gn binary into it. The mkdir raises FileNotFoundError, and
   * nothing is copied, when the directory and its parent are both missing.
   */
  method InstallGn(shell: Shell, gnOut: string) returns (ok: bool)
    modifies shell`actions, shell`dirs
    ensures ok <==> gnOut in old(shell.dirs) || Parent(gnOut) in old(shell.dirs)
    ensures ok ==> shell.dirs == old(shell.dirs) + {gnOut}
    ensures ok ==> shell.actions == old(shell.actions) + InstallLog(gnOut, gnOut in old(shell.dirs))
    ensures !ok ==> shell.dirs == old(shell.dirs) && shell.actions == old(shell.actions) + [Raised(FILE_NOT_FOUND)]
  {
    var dst := Join(gnOut, "gn");
    if gnOut !in shell.dirs {
      ok := shell.MakeDir(gnOut);
      if !ok {
        return;
      }
      shell.CopyFile(GN_BUILT, dst);
      assert shell.actions == old(shell.actions) + [MadeDir(gnOut), Copied(GN_BUILT, dst)];
    } else {
      assert shell.dirs == old(shell.dirs) + {gnOut};
      shell.CopyFile(GN_BUILT, dst);
      ok := true;
    }
  }

  /**
   * build_wind: configure with gn, then build with ninja. A failed
   * configure returns -1; a failed build returns ninja's own status. The
   * project path argument is never used.
   */
  method BuildWind(shell: Shell, gnBinary: string, windProject: string, windOut: string, buildType: string, jobs: int)
    returns (r: int)
    modifies shell`actions, shell`commands
    ensures var b := |old(shell.commands)|;
      var gen := WindGenCommand(gnBinary, windOut, buildType);
      var ninja := WindNinjaCommand(windOut, jobs);
      && (shell.StatusAt(b) != 0 ==>
            r == -1 && shell.commands == old(shell.commands) + [gen] && shell.actions == old(shell.actions) + [Ran(gen)])
      && (shell.StatusAt(b) == 0 ==>
            && r == shell.StatusAt(b + 1)
            && shell.commands == old(shell.commands) + [gen, ninja]
            && shell.actions == old(shell.actions) + [Ran(gen), Ran(ninja)])
  {
    var status := shell.Execute(WindGenCommand(gnBinary, windOut, buildType));
    if status != 0 {
      return -1;
    }
    var ret := shell.Execute(WindNinjaCommand(windOut, jobs));
    if ret != 0 {
      return ret;
    }
    return 0;
  }

  /**
   * Fail-fast: since the log c0, the commands of p ran in order, each
   * after the previous one succeeded, up to the first that failed or to
   * the end of p.
   */
  ghost predicate FailFast(shell: Shell, c0: seq<string>, p: seq<string>)
    reads shell`commands
  {
    var e := |shell.commands|;
    && |c0| < e <= |c0| + |p|
    && shell.commands == c0 + p[..e - |c0|]
    && shell.Succeeded(|c0|, e - 1)
    && (e < |c0| + |p| ==> shell.StatusAt(e - 1) != 0)
  }

  /** Fail-fast after n commands of p: the first n - 1 succeeded and the n-th failed or was the last. */
  lemma FailFastAt(shell: Shell, c0: seq<string>, p: seq<string>, n: nat)
    requires 1 <= n <= |p| && shell.commands == c0 + p[..n]
    requires shell.Succeeded(|c0|, |c0| + n - 1)
    requires n < |p| ==> shell.StatusAt(|c0| + n - 1) != 0
    ensures FailFast(shell, c0, p)
  {
  }

  /**
   * Four commands run fail-fast and stopped after n of them: the whole
   * list succeeded exactly when all four ran and the last one succeeded.
   */
  lemma PipelineOutcome(shell: Shell, c0: seq<string>, p: seq<string>, n: nat)
    requires |p| == 4 && 1 <= n <= 4 && shell.commands == c0 + p[..n]
    requires n >= 2 ==> shell.StatusAt(|c0|) == 0
    requires n >= 3 ==> shell.StatusAt(|c0| + 1) == 0
    requires n == 4 ==> shell.StatusAt(|c0| + 2) == 0
    requires n < 4 ==> shell.StatusAt(|c0| + n - 1) != 0
    ensures FailFast(shell, c0, p)
    ensures shell.Succeeded(|c0|, |c0| + 4) <==> n == 4 && shell.StatusAt(|c0| + 3) == 0
  {
    var b := |c0|;
    if n >= 2 {
      SucceededSnoc(shell, b, b);
    }
    if n >= 3 {
      SucceededSnoc(shell, b, b + 1);
    }
    if n == 4 {
      SucceededSnoc(shell, b, b + 2);
      if shell.StatusAt(b + 3) == 0 {
        SucceededSnoc(shell, b, b + 3);
      }
    }
    FailFastAt(shell, c0, p, n);
  }

  /**
   * build_all: create <root>/out/<type>/gn if it is missing, then the four
   * commands of the pipeline in order, stopping at the first that fails;
   * the result is 0 exactly when all four succeed, -1 otherwise. os.mkdir
   * is not recursive: when <root>/out/<type> is missing too, it raises
   * FileNotFoundError before any command runs.
   */
  method BuildAll(shell: Shell, root: string, buildType: string, jobs: int) returns (r: int, raised: bool)
    modifies shell`actions, shell`commands, shell`dirs
    ensures raised <==> GnOutPath(root, buildType) !in old(shell.dirs) && Parent(GnOutPath(root, buildType)) !in old(shell.dirs)
    ensures raised ==>
      && shell.commands == old(shell.commands) && shell.dirs == old(shell.dirs)
      && shell.actions == old(shell.actions) + [Raised(FILE_NOT_FOUND)]
    ensures !raised ==>
      && (r == 0 || r == -1)
      && GnOutPath(root, buildType) in shell.dirs
      && FailFast(shell, old(shell.commands), Pipeline(root, buildType, jobs))
      && (r == 0 <==> shell.Succeeded(|old(shell.commands)|, |old(shell.commands)| + 4))
  {
    var outPath := OutPath(root, buildType);
    var windCodesDirectory := Join(root, "wind");
    var windOutPath := Join(outPath, "wind");
    var thirdpartyPath := Join(root, "thirdparty");
    var outGnPath := Join(outPath, "gn");
    if outGnPath !in shell.dirs {
      var made := shell.MakeDir(outGnPath);
      if !made {
        return -1, true;
      }
    }
    var gnSourcesPath := Join(thirdpartyPath, "gn");
    r := BuildPipeline(shell, gnSourcesPath, outGnPath, windCodesDirectory, windOutPath, buildType, jobs);
    raised := false;
  }

  /**
   * The part of build_all after gn's output directory is in place:
   * build_gn, then build_wind with the gn binary it produced, returning -1
   * at the first failure.
   */
  method BuildPipeline(shell: Shell, gnSource: string, gnOut: string, windProject: string, windOut: string,
                       buildType: string, jobs: int) returns (r: int)
    requires gnOut in shell.dirs
    modifies shell`actions, shell`commands, shell`dirs
    ensures r == 0 || r == -1
    ensures shell.dirs == old(shell.dirs)
    ensures FailFast(shell, old(shell.commands), StageCommands(gnOut, windOut, buildType, jobs))
    ensures r == 0 <==> shell.Succeeded(|old(shell.commands)|, |old(shell.commands)| + 4)
  {
    ghost var c0 := shell.commands;
    ghost var p := StageCommands(gnOut, windOut, buildType, jobs);
    assert p[..1] == [GN_GEN_COMMAND] && p[..2] == [GN_GEN_COMMAND, GnNinjaCommand(jobs)];
    var gn, raised := BuildGn(shell, gnSource, gnOut, jobs);
    if gn != 0 {
      PipelineOutcome(shell, c0, p, if shell.StatusAt(|c0|) != 0 then 1 else 2);
      return -1;
    }
    var wind := WindStage(shell, gnOut, windProject, windOut, buildType, jobs, c0);
    if wind != 0 {
      return -1;
    }
    return 0;
  }

  /** The last two commands of a four-command pipeline whose first two succeeded: it ends fail-fast. */
  lemma WindTail(shell: Shell, c0: seq<string>, p: seq<string>, wind: int)
    requires |p| == 4 && shell.StatusAt(|c0|) == 0 && shell.StatusAt(|c0| + 1) == 0
    requires shell.StatusAt(|c0| + 2) != 0 ==> wind != 0 && shell.commands == c0 + p[..2] + [p[2]]
    requires shell.StatusAt(|c0| + 2) == 0 ==> wind == shell.StatusAt(|c0| + 3) && shell.commands == c0 + p[..2] + [p[2], p[3]]
    ensures FailFast(shell, c0, p)
    ensures wind == 0 <==> shell.Succeeded(|c0|, |c0| + 4)
  {
    if shell.StatusAt(|c0| + 2) != 0 {
      assert p[..3] == p[..2] + [p[2]];
      PipelineOutcome(shell, c0, p, 3);
    } else {
      assert p[..4] == p[..2] + [p[2], p[3]];
      PipelineOutcome(shell, c0, p, 4);
    }
  }

  /** build_wind, run with the gn binary once both gn commands succeeded: the pipeline ends fail-fast. */
  method WindStage(shell: Shell, gnOut: string, windProject: string, windOut: string, buildType: string, jobs: int,
                   ghost c0: seq<string>) returns (wind: int)
    requires shell.commands == c0 + StageCommands(gnOut, windOut, buildType, jobs)[..2]
    requires shell.StatusAt(|c0|) == 0 && shell.StatusAt(|c0| + 1) == 0
    modifies shell`actions, shell`commands
    ensures FailFast(shell, c0, StageCommands(gnOut, windOut, buildType, jobs))
    ensures wind == 0 <==> shell.Succeeded(|c0|, |c0| + 4)
  {
    ghost var p := StageCommands(gnOut, windOut, buildType, jobs);
    var gnBinaryPath := Join(gnOut, "gn");
    assert p[2] == WindGenCommand(gnBinaryPath, windOut, buildType) && p[3] == WindNinjaCommand(windOut, jobs);
    assert |shell.commands| == |c0| + 2;
    wind := BuildWind(shell, gnBinaryPath, windProject, windOut, buildType, jobs);
    WindTail(shell, c0, p, wind);
  }


  // main.

  datatype Outcome =
    | HelpShown
    | TypeRejected
    | JobsInvalid
    | FormatExited
    | Formatted
    | BuildFailed
    | BuildDone
    | BuildRaised

  /**
   * The process exit status: 1 when int() or os.mkdir raises or
   * format_codes calls sys.exit with a message, 0 otherwise. A failed
   * build still exits 0.
   */
  function ExitStatus(o: Outcome): int
  {
    if o == JobsInvalid || o == FormatExited || o == BuildRaised then 1 else 0
  }

  /** main's last line tells a failed build from a good one, but the exit status does not. */
  lemma BuildFailureExitsZero()
    ensures ExitStatus(BuildFailed) == ExitStatus(BuildDone) == 0
  {
  }

  /** format_codes.format on one directory, seen through the commands it runs: all of them, or the first n. */
  method FormatPart(shell: Shell, dir: string, walk: seq<WalkEntry>) returns (exited: bool, ghost n: nat)
    modifies shell`actions, shell`commands
    ensures old(shell.commands) <= shell.commands
    ensures exited <==> !shell.Succeeded(|old(shell.commands)|, |shell.commands|)
    ensures exited ==>
      n <= |FormatCodes.FormatCommands(dir, walk)|
      && shell.commands == old(shell.commands) + FormatCodes.FormatCommands(dir, walk)[..n]
    ensures !exited ==> shell.commands == old(shell.commands) + FormatCodes.FormatCommands(dir, walk)
  {
    ghost var c0 := shell.commands;
    exited := FormatCodes.Format(shell, dir, walk);
    n := |shell.commands| - |c0|;
  }

  /** A run cut short inside one directory's commands ran a prefix of both directories' commands. */
  lemma StoppedWithin(commands: seq<string>, c0: seq<string>, c1: seq<string>, before: seq<string>, cmds: seq<string>, after: seq<string>, n: nat)
    requires c1 == c0 + before && n <= |cmds| && commands == c1 + cmds[..n]
    ensures c0 <= commands
    ensures commands[|c0|..] <= before + cmds + after
  {
    assert commands[|c0|..] == before + cmds[..n];
    assert (before + cmds + after)[..|before| + n] == before + cmds[..n];
  }
  /**
   * main in format-only mode: format <root>/wind and then <root>/samples,
   * stopping if the first exits.
   */
  method RunFormat(shell: Shell, root: string, windWalk: seq<WalkEntry>, samplesWalk: seq<WalkEntry>)
    returns (outcome: Outcome)
    modifies shell`actions, shell`commands
    ensures outcome == Formatted || outcome == FormatExited
    ensures old(shell.commands) <= shell.commands
    ensures outcome == FormatExited <==> !shell.Succeeded(|old(shell.commands)|, |shell.commands|)
    ensures outcome == Formatted ==>
      shell.commands == old(shell.commands)
        + FormatCodes.FormatCommands(Join(root, "wind"), windWalk) + FormatCodes.FormatCommands(Join(root, "samples"), samplesWalk)
    ensures outcome == FormatExited ==>
      shell.commands[|old(shell.commands)|..]
        <= FormatCodes.FormatCommands(Join(root, "wind"), windWalk) + FormatCodes.FormatCommands(Join(root, "samples"), samplesWalk)
  {
    var windCodesDirectory := Join(root, "wind");
    var samplesCodesDirectory := Join(root, "samples");
    ghost var c0 := shell.commands;
    ghost var wind := FormatCodes.FormatCommands(windCodesDirectory, windWalk);
    ghost var samples := FormatCodes.FormatCommands(samplesCodesDirectory, samplesWalk);
    var exited, n := FormatPart(shell, windCodesDirectory, windWalk);
    if exited {
      StoppedWithin(shell.commands, c0, c0, [], wind, samples, n);
      return FormatExited;
    }
    ghost var c1 := shell.commands;
    exited, n := FormatPart(shell, samplesCodesDirectory, samplesWalk);
    if exited {
      StoppedWithin(shell.commands, c0, c1, wind, samples, [], n);
      return FormatExited;
    }
    Seqs.AppendAssoc(c0, wind, samples);
    return Formatted;
  }

  /** main's build: build_all, then "Build failed." or "Build done.", unless build_all raised. */
  method RunBuild(shell: Shell, settings: Settings, root: string) returns (outcome: Outcome)
    modifies shell`actions, shell`commands, shell`dirs
    ensures outcome == BuildFailed || outcome == BuildDone || outcome == BuildRaised
    ensures var gnOut := GnOutPath(root, settings.buildType);
      outcome == BuildRaised <==> gnOut !in old(shell.dirs) && Parent(gnOut) !in old(shell.dirs)
    ensures outcome == BuildRaised ==>
      shell.commands == old(shell.commands) && shell.actions == old(shell.actions) + [Raised(FILE_NOT_FOUND)]
    ensures outcome != BuildRaised ==> FailFast(shell, old(shell.commands), Pipeline(root, settings.buildType, settings.jobs))
    ensures outcome == BuildDone <==> outcome != BuildRaised && shell.Succeeded(|old(shell.commands)|, |old(shell.commands)| + 4)
    ensures outcome != BuildRaised ==>
      shell.actions != [] && shell.actions[|shell.actions| - 1] == Said(if outcome == BuildDone then "Build done." else "Build failed.")
  {
    var r, raised := BuildAll(shell, root, settings.buildType, settings.jobs);
    if raised {
      outcome := BuildRaised;
    } else if r != 0 {
      shell.Print("Build failed.");
      outcome := BuildFailed;
    } else {
      shell.Print("Build done.");
      outcome := BuildDone;
    }
  }

  /**
   * main: the options, then format or build under the project root two
   * directories above the script. An int() failure raises out of main
   * with nothing printed.
   */
  method RunScript(shell: Shell, opts: seq<Opt>, cpuCount: int, scriptDir: string,
              windWalk: seq<WalkEntry>, samplesWalk: seq<WalkEntry>) returns (outcome: Outcome)
    modifies shell`actions, shell`commands, shell`dirs
    ensures var step := ApplyOptions(Settings(cpuCount, DEFAULT_BUILD_TYPE, false), opts);
      && (step == ShowHelp <==> outcome == HelpShown)
      && (step.RejectType? <==> outcome == TypeRejected)
      && (step.BadJobs? <==> outcome == JobsInvalid)
      && (!step.Continue? ==>
            && shell.commands == old(shell.commands) && shell.dirs == old(shell.dirs)
            && shell.actions == old(shell.actions) + StepOutput(step))
      && (step.Continue? && step.settings.onlyFormat ==>
            && (outcome == Formatted || outcome == FormatExited)
            && shell.dirs == old(shell.dirs) && old(shell.commands) <= shell.commands)
      && (step.Continue? && !step.settings.onlyFormat ==>
            && (outcome == BuildDone || outcome == BuildFailed || outcome == BuildRaised)
            && (outcome == BuildRaised ==> shell.commands == old(shell.commands))
            && (outcome != BuildRaised ==>
                  FailFast(shell, old(shell.commands), Pipeline(ProjectRoot(scriptDir), step.settings.buildType, step.settings.jobs)))
            && (outcome == BuildDone <==>
                  outcome != BuildRaised && shell.Succeeded(|old(shell.commands)|, |old(shell.commands)| + 4)))
    ensures var step := ApplyOptions(Settings(cpuCount, DEFAULT_BUILD_TYPE, false), opts);
      ExitStatus(outcome) != 0 <==>
        || step.BadJobs?
        || (step.Continue? && step.settings.onlyFormat && !shell.Succeeded(|old(shell.commands)|, |shell.commands|))
        || (step.Continue? && !step.settings.onlyFormat &&
              var gnOut := GnOutPath(ProjectRoot(scriptDir), step.settings.buildType);
              gnOut !in old(shell.dirs) && Parent(gnOut) !in old(shell.dirs))
  {
    var step := ParseOptions(shell, opts, cpuCount);
    match step {
      case ShowHelp => return HelpShown;
      case RejectType(_) => return TypeRejected;
      case BadJobs(_) => return JobsInvalid;
      case Continue(settings) =>
        var root := ProjectRoot(scriptDir);
        if settings.onlyFormat {
          outcome := RunFormat(shell, root, windWalk, samplesWalk);
        } else {
          outcome := RunBuild(shell, settings, root);
        }
    }
  }
}
