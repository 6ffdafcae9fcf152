/**
 * The logger front end (wind/base/Log.h, wind/base/Log.cpp): five ordered
 * levels, the LOG_* macros that decide whether a record is produced, the
 * process-wide level read from WIND_LOG_LEVEL, the base name of the source
 * file, and the end of a record written by the Logger destructor into its
 * LogStream. The environment value and the build mode (NDEBUG) are inputs.
 */
module Log {
  import opened Wrappers
  import opened Numerals
  import LogStream
  import CInt

  datatype LogLevel = TRACE | DEBUG | INFO | WARN | ERROR

  /** The enum's underlying value: TRACE = 1 up to ERROR = 5. */
  function Ordinal(l: LogLevel): (n: int)
    ensures 1 <= n <= 5
  {
    match l
    case TRACE => 1
    case DEBUG => 2
    case INFO => 3
    case WARN => 4
    case ERROR => 5
  }

  /** static_cast<LogLevel>(n) for n in [1, 5]. */
  function LevelOfOrdinal(n: int): (l: LogLevel)
    requires 1 <= n <= 5
    ensures Ordinal(l) == n
  {
    if n == 1 then TRACE else if n == 2 then DEBUG else if n == 3 then INFO else if n == 4 then WARN else ERROR
  }

  /** The levels are strictly ordered by their values, so no two share one. */
  lemma OrdinalOrder(a: LogLevel, b: LogLevel)
    ensures Ordinal(a) == Ordinal(b) ==> a == b
    ensures LevelOfOrdinal(Ordinal(a)) == a
    ensures Ordinal(TRACE) < Ordinal(DEBUG) < Ordinal(INFO) < Ordinal(WARN) < Ordinal(ERROR)
  {
  }

  /** The LOG_* macros; LogFatalIf carries the value of its condition. */
  datatype LogMacro = LogTrace | LogDebug | LogInfo | LogWarn | LogError | LogSysFatal | LogFatalIf(cond: bool)

  /** The level the macro's record carries. */
  function MacroLevel(m: LogMacro): LogLevel
  {
    match m
    case LogTrace => TRACE
    case LogDebug => DEBUG
    case LogInfo => INFO
    case LogWarn => WARN
    case _ => ERROR
  }

  /** Whether the record aborts the process once written. */
  function MacroIsFatal(m: LogMacro): bool
  {
    m.LogSysFatal? || m.LogFatalIf?
  }

  /**
   * Whether the macro produces a record at the current level: the four
   * lower macros compare against the current level, the error macros do
   * not, and LogFatalIf depends only on its condition.
   */
  predicate Emits(m: LogMacro, current: LogLevel)
    ensures m == LogError || m == LogSysFatal ==> Emits(m, current)
    ensures current == TRACE && !m.LogFatalIf? ==> Emits(m, current)
  {
    match m
    case LogError => true
    case LogSysFatal => true
    case LogFatalIf(cond) => cond
    case _ => Ordinal(current) <= Ordinal(MacroLevel(m))
  }

  /** Each filtered macro, level by level; the unfiltered ones whatever the level. */
  lemma EmitsByLevel(current: LogLevel, cond: bool)
    ensures Emits(LogTrace, current) <==> current == TRACE
    ensures Emits(LogDebug, current) <==> current in {TRACE, DEBUG}
    ensures Emits(LogInfo, current) <==> current in {TRACE, DEBUG, INFO}
    ensures Emits(LogWarn, current) <==> current != ERROR
    ensures Emits(LogError, current) && Emits(LogSysFatal, current)
    ensures Emits(LogFatalIf(cond), current) <==> cond
  {
  }

  /** Lowering the current level never silences a macro. */
  lemma EmitsMonotone(m: LogMacro, high: LogLevel, low: LogLevel)
    requires Ordinal(low) <= Ordinal(high) && Emits(m, high)
    ensures Emits(m, low)
  {
  }

  /** The fatal macros are the ones carrying ERROR that abort. */
  lemma FatalMacros(m: LogMacro)
    ensures MacroIsFatal(m) ==> MacroLevel(m) == ERROR
    ensures m.LogError? ==> MacroLevel(m) == ERROR && !MacroIsFatal(m)
  {
  }

  /** defaultLogLevel: INFO in a release (NDEBUG) build, DEBUG otherwise. */
  function DefaultLogLevel(ndebug: bool): (l: LogLevel)
    ensures ndebug <==> l == INFO
    ensures l in {DEBUG, INFO}
  {
    if ndebug then INFO else DEBUG
  }

  /** logLevelToString: the upper-case name of each level. */
  function LevelToString(l: LogLevel): (s: string)
    ensures |s| >= 4
  {
    match l
    case TRACE => "TRACE"
    case DEBUG => "DEBUG"
    case INFO => "INFO"
    case WARN => "WARN"
    case ERROR => "ERROR"
  }

  /** The name table of getLogLevelFromEnv. */
  function LevelFromName(s: string): (r: Option<LogLevel>)
    ensures r.Some? ==> LevelToString(r.value) == s
  {
    if s == "TRACE" then Some(TRACE)
    else if s == "INFO" then Some(INFO)
    else if s == "DEBUG" then Some(DEBUG)
    else if s == "WARN" then Some(WARN)
    else if s == "ERROR" then Some(ERROR)
    else None
  }

  /** The name table and logLevelToString are inverse: a name is found iff it is some level's name. */
  lemma NameRoundTrip(l: LogLevel, s: string)
    ensures LevelFromName(LevelToString(l)) == Some(l)
    ensures LevelFromName(s) == Some(l) <==> s == LevelToString(l)
  {
  }

  /** isspace in the C locale. */
  predicate IsSpace(c: char)
  {
    c == ' ' || c == '\t' || c == '\n' || c == '\U{B}' || c == '\U{C}' || c == '\r'
  }

  /** s without its leading white space. */
  function SkipSpaces(s: string): (t: string)
    ensures |t| <= |s| && t == s[|s| - |t|..]
    ensures t != [] ==> !IsSpace(t[0])
  {
    if s != [] && IsSpace(s[0]) then SkipSpaces(s[1..]) else s
  }

  /** The longest prefix of decimal digits. */
  function LeadingDigits(s: string): (d: string)
    ensures |d| <= |s| && d == s[..|d|]
    ensures forall i :: 0 <= i < |d| ==> IsDigit(d[i])
    ensures |d| < |s| ==> !IsDigit(s[|d|])
  {
    if s != [] && IsDigit(s[0]) then [s[0]] + LeadingDigits(s[1..]) else []
  }

  /** The number strtol reads: white space, an optional sign, then as many digits as follow; 0 without any. */
  function ReadDecimal(s: string): int
  {
    var t := SkipSpaces(s);
    if t != [] && t[0] == '-' then 0 - Value(LeadingDigits(t[1..]), 10, DECIMAL) as int
    else if t != [] && t[0] == '+' then Value(LeadingDigits(t[1..]), 10, DECIMAL)
    else Value(LeadingDigits(t), 10, DECIMAL)
  }

  const LONG_MIN: int := -0x8000_0000_0000_0000
  const LONG_MAX: int := 0x7FFF_FFFF_FFFF_FFFF

  /** strtol(s, NULL, 10) with a 64-bit long: a number out of range is clamped to the nearer bound. */
  function Strtol(s: string): (r: int)
    ensures LONG_MIN <= r <= LONG_MAX
    ensures LONG_MIN <= ReadDecimal(s) <= LONG_MAX ==> r == ReadDecimal(s)
    ensures ReadDecimal(s) > LONG_MAX ==> r == LONG_MAX
    ensures ReadDecimal(s) < LONG_MIN ==> r == LONG_MIN
  {
    var v := ReadDecimal(s);
    if v > LONG_MAX then LONG_MAX else if v < LONG_MIN then LONG_MIN else v
  }

  /** atoi as glibc defines it, (int) strtol(s, NULL, 10): a number outside int's range is cut to 32 bits. */
  function Atoi(s: string): (r: int)
    ensures CInt.INT_MIN <= r <= CInt.INT_MAX
    ensures CInt.INT_MIN <= ReadDecimal(s) <= CInt.INT_MAX ==> r == ReadDecimal(s)
  {
    CInt.ToInt32(Strtol(s))
  }

  /** A string of digits is its own longest digit prefix. */
  lemma {:induction false} LeadingDigitsOfDigits(s: string)
    requires forall i :: 0 <= i < |s| ==> IsDigit(s[i])
    ensures LeadingDigits(s) == s
  {
    if s != [] {
      LeadingDigitsOfDigits(s[1..]);
    }
  }

  /**
   * strtol reads the decimal text of n back as n; atoi gives n itself when
   * it fits an int, and otherwise n (or LONG_MAX, past it) cut to 32 bits.
   */
  lemma AtoiOfDec(n: nat)
    ensures ReadDecimal(Dec(n)) == n
    ensures Atoi(Dec(n)) == CInt.ToInt32(if n <= LONG_MAX then n else LONG_MAX)
    ensures n <= CInt.INT_MAX ==> Atoi(Dec(n)) == n
  {
    DecIsDigits(n);
    LeadingDigitsOfDigits(Dec(n));
    ReadDecimalOfDigits(Dec(n));
    DecimalIsTable();
    ValueOfText(n, 10, DECIMAL);
  }

  /** A text that starts with a digit and is all digits reads as its decimal value. */
  lemma ReadDecimalOfDigits(t: string)
    requires t != [] && IsDigit(t[0]) && LeadingDigits(t) == t
    ensures ReadDecimal(t) == Value(t, 10, DECIMAL)
  {
    SkipSpacesNone(t);
  }

  lemma SkipSpacesNone(s: string)
    requires s != [] && !IsSpace(s[0])
    ensures SkipSpaces(s) == s
  {
  }

  /** Text starting with anything but white space, a sign or a digit reads as 0. */
  lemma AtoiNonNumeric(s: string)
    requires s != [] && !IsSpace(s[0]) && !IsDigit(s[0]) && s[0] != '-' && s[0] != '+'
    ensures ReadDecimal(s) == 0 && Atoi(s) == 0
  {
  }

  /**
   * getLogLevelFromEnv with the variable's value (None when unset): an
   * exact level name, else atoi of the value when it is in [1, 5], else
   * the default level.
   */
  function LevelFromEnv(env: Option<string>, ndebug: bool): (l: LogLevel)
    ensures env.None? ==> l == DefaultLogLevel(ndebug)
  {
    match env
    case None => DefaultLogLevel(ndebug)
    case Some(v) =>
      match LevelFromName(v)
      case Some(named) => named
      case None =>
        var n := Atoi(v);
        if n < Ordinal(TRACE) || n > Ordinal(ERROR) then DefaultLogLevel(ndebug) else LevelOfOrdinal(n)
  }

  /** A level's name selects that level; text that is no name and that atoi reads as 0 selects the default. */
  lemma LevelFromEnvNamed(l: LogLevel, v: string, ndebug: bool)
    ensures LevelFromEnv(Some(LevelToString(l)), ndebug) == l
    ensures LevelFromName(v).None? && Atoi(v) == 0 ==> LevelFromEnv(Some(v), ndebug) == DefaultLogLevel(ndebug)
  {
    NameRoundTrip(l, LevelToString(l));
  }

  /** No level name starts with a digit. */
  lemma NoNumericName(s: string)
    requires s != [] && IsDigit(s[0])
    ensures LevelFromName(s).None?
  {
    if LevelFromName(s).Some? {
      NameRoundTrip(LevelFromName(s).value, s);
    }
  }

  /**
   * The decimal digits of n select the level whose value atoi makes of
   * them, when that value is 1 to 5, and the default level otherwise.
   */
  lemma LevelFromEnvNumeric(n: nat, ndebug: bool)
    ensures var k := Atoi(Dec(n));
      (1 <= k <= 5 ==> LevelFromEnv(Some(Dec(n)), ndebug) == LevelOfOrdinal(k)) &&
      (k < 1 || k > 5 ==> LevelFromEnv(Some(Dec(n)), ndebug) == DefaultLogLevel(ndebug))
    ensures 1 <= n <= 5 ==> LevelFromEnv(Some(Dec(n)), ndebug) == LevelOfOrdinal(n)
    ensures n == 0 || 5 < n <= CInt.INT_MAX ==> LevelFromEnv(Some(Dec(n)), ndebug) == DefaultLogLevel(ndebug)
  {
    AtoiOfDec(n);
    DecIsDigits(n);
    NoNumericName(Dec(n));
  }

  /**
   * A number past int's range wraps: every n congruent to 1 modulo 2^32,
   * 4294967297 the first above 1, is read as 1 and selects TRACE.
   */
  lemma WrappedNumberSelectsTrace(n: nat, ndebug: bool)
    requires n <= LONG_MAX && n % CInt.U32 == 1
    ensures LevelFromEnv(Some(Dec(n)), ndebug) == TRACE
  {
    assert Atoi(Dec(n)) == 1 by {
      AtoiOfDec(n);
      assert CInt.ToInt32(n) == 1;
    }
    LevelFromEnvNumeric(n, ndebug);
  }

  /** g_logLevel, set from the environment at start-up. */
  class LogLevelSetting {
    var level: LogLevel

    constructor (env: Option<string>, ndebug: bool)
      ensures level == LevelFromEnv(env, ndebug)
    {
      level := LevelFromEnv(env, ndebug);
    }

    /** Logger::currentLogLevel */
    function CurrentLogLevel(): LogLevel
      reads this
    {
      level
    }

    /** Logger::setLogLevel: the level read next is the one set. */
    method SetLogLevel(l: LogLevel)
      modifies this
      ensures CurrentLogLevel() == l
      ensures forall m :: Emits(m, CurrentLogLevel()) == Emits(m, l)
    {
      level := l;
    }
  }

  /** The index of the last '/', if any: strrchr(s, '/'). */
  function LastSlash(s: string): (r: Option<nat>)
    ensures r.Some? ==> r.value < |s| && s[r.value] == '/' && forall j :: r.value < j < |s| ==> s[j] != '/'
    ensures r.None? ==> forall j :: 0 <= j < |s| ==> s[j] != '/'
  {
    if s == [] then None
    else if s[|s| - 1] == '/' then Some(|s| - 1)
    else LastSlash(s[..|s| - 1])
  }

  /** A pointer into the path: null, an offset into it, or one past the null address. */
  datatype Ptr = Null | At(offset: nat) | NullPlusOne

  /** The pointer `strrchr(data, '/') + 1` of SourceFileName::append as written. */
  function StartAsWritten(s: string): Ptr
  {
    match LastSlash(s)
    case None => NullPlusOne
    case Some(i) => At(i + 1)
  }

  /**
   * The guard `p == NULL` tests the pointer after adding one, so it never
   * holds; with no '/' the copy starts at an address outside the path.
   */
  lemma StartAsWrittenNeverNull(s: string)
    ensures StartAsWritten(s) != Null
    ensures LastSlash(s).None? <==> StartAsWritten(s) == NullPlusOne
  {
  }

  /** The counterexample: a bare file name passes the guard. */
  lemma BareFileNamePassesGuard()
    ensures StartAsWritten("Log.cpp") == NullPlusOne
  {
    assert "Log.cpp"[..6] == "Log.cp";
    assert "Log.cpp"[..5] == "Log.c";
    assert "Log.cpp"[..4] == "Log.";
    assert "Log.cpp"[..3] == "Log";
    assert "Log.cpp"[..2] == "Lo";
    assert "Log.cpp"[..1] == "L";
  }

  /** The guard as intended, tested before adding one: a bare name leaves the buffer empty. */
  function BaseName(s: string): (r: Option<string>)
    ensures r.None? <==> forall j :: 0 <= j < |s| ==> s[j] != '/'
    ensures r.Some? ==> forall j :: 0 <= j < |r.value| ==> r.value[j] != '/'
    ensures r.Some? ==> exists dir :: s == dir + r.value && dir != [] && dir[|dir| - 1] == '/'
  {
    match LastSlash(s)
    case None => None
    case Some(i) =>
      var dir := s[..i + 1];
      assert s == dir + s[i + 1..] && dir[|dir| - 1] == s[i];
      Some(s[i + 1..])
  }

  const NUL: char := '\0'
  const FILE_NAME_CAPACITY: nat := 256

  /** The text a SourceFileName copies for the given path and length; none when the path has no '/'. */
  function CopiedText(path: string, len: nat): string
    requires len == |path| || len == |path| + 1
  {
    match LastSlash(path)
    case None => []
    case Some(i) => (path + [NUL])[i + 1..len]
  }

  /** The copied text is the base name, followed by the terminator when the length counts it; nothing without a '/'. */
  lemma CopiedTextIsBaseName(path: string, len: nat)
    requires len == |path| || len == |path| + 1
    ensures BaseName(path).Some? && len == |path| ==> CopiedText(path, len) == BaseName(path).value
    ensures BaseName(path).Some? && len == |path| + 1 ==> CopiedText(path, len) == BaseName(path).value + [NUL]
    ensures BaseName(path).None? ==> CopiedText(path, len) == []
  {
    match LastSlash(path)
    case None =>
    case Some(i) =>
      assert (path + [NUL])[i + 1..|path|] == path[i + 1..];
      assert (path + [NUL])[i + 1..|path| + 1] == path[i + 1..] + [NUL];
  }

  /**
   * SourceFileName: the bytes after the last '/' copied into a 256-byte
   * buffer. The pointer constructor stops at the terminator (strlen); the
   * array constructor copies the array's whole length, terminator included.
   */
  class SourceFileName {
    const buf: array<char>
    var len: nat

    ghost predicate Valid()
      reads this, buf
    {
      buf.Length == FILE_NAME_CAPACITY && len < FILE_NAME_CAPACITY
    }

    function Text(): string
      reads this, buf
      requires Valid()
    {
      buf[..len]
    }

    /** SourceFileName(const char *s) */
    constructor FromPointer(s: string)
      requires forall j :: 0 <= j < |s| ==> s[j] != NUL
      requires |CopiedText(s, |s|)| < FILE_NAME_CAPACITY
      ensures Valid() && fresh(buf)
      ensures Text() == CopiedText(s, |s|)
      ensures BaseName(s).Some? ==> Text() == BaseName(s).value
    {
      buf := new char[FILE_NAME_CAPACITY](_ => NUL);
      len := 0;
      new;
      Append(s, |s|);
      CopiedTextIsBaseName(s, |s|);
    }

    /** SourceFileName(const char (&s)[len]) for a literal, whose length counts the terminator. */
    constructor FromArray(s: string)
      requires forall j :: 0 <= j < |s| ==> s[j] != NUL
      requires |CopiedText(s, |s| + 1)| < FILE_NAME_CAPACITY
      ensures Valid() && fresh(buf)
      ensures Text() == CopiedText(s, |s| + 1)
      ensures BaseName(s).Some? ==> Text() == BaseName(s).value + [NUL]
    {
      buf := new char[FILE_NAME_CAPACITY](_ => NUL);
      len := 0;
      new;
      Append(s, |s| + 1);
      CopiedTextIsBaseName(s, |s| + 1);
    }

    /**
     * append(data, len) with the guard tested before adding one: nothing is
     * copied for a path without '/'; otherwise the bytes from just past the
     * last '/' up to len.
     */
    method Append(path: string, n: nat)
      requires buf.Length == FILE_NAME_CAPACITY && len == 0
      requires n == |path| || n == |path| + 1
      requires |CopiedText(path, n)| < FILE_NAME_CAPACITY
      modifies this, buf
      ensures Valid() && Text() == CopiedText(path, n)
    {
      var slash := LastSlash(path);
      if slash.None? {
        return;
      }
      var data := path + [NUL];
      var start := slash.value + 1;
      var bytesToWrite := n - start;
      var i := 0;
      while i < bytesToWrite
        invariant 0 <= i <= bytesToWrite
        invariant forall j :: 0 <= j < i ==> buf[j] == data[start + j]
      {
        buf[i] := data[start + i];
        i := i + 1;
      }
      len := bytesToWrite;
      assert buf[..len] == data[start..n];
    }
  }

  /** What the destructor appends: " -- <file>:<line>\n", or only "\n" with LOG_HIDE_FILE_LINE. */
  function RecordEnd(fileName: string, line: int, hideFileLine: bool): (s: string)
    ensures |s| >= 1 && s[|s| - 1] == '\n'
  {
    if hideFileLine then "\n" else " -- " + fileName + ":" + SignedDec(line) + "\n"
  }

  /** The file name and the line can be read back from the end of a record. */
  lemma RecordEndReadsBack(fileName: string, line: nat)
    ensures var s := RecordEnd(fileName, line, false);
      && s[..4] == " -- "
      && s[4..4 + |fileName|] == fileName
      && s[4 + |fileName|] == ':'
      && Value(s[5 + |fileName|..|s| - 1], 10, DECIMAL) == line
  {
    var s := RecordEnd(fileName, line, false);
    assert s[5 + |fileName|..|s| - 1] == Dec(line);
    DecimalIsTable();
    ValueOfText(line, 10, DECIMAL);
  }

  /** The text the Logger constructor writes first; the time, pid and tid are inputs. */
  function RecordStart(stamp: string, pid: string, tid: string, tag: string, level: LogLevel): (s: string)
    ensures |s| >= |LevelToString(level)| + 2 && s[|s| - 2..] == ": "
  {
    stamp + " " + pid + " " + tid + " " + tag + " " + LevelToString(level) + ": "
  }

  /** The file and line written piece by piece, then the newline, make up the record end. */
  lemma RegroupFileLine(logged: string, name: string, lineText: string)
    ensures logged + " -- " + name + ":" + lineText + "\n" == logged + (" -- " + name + ":" + lineText + "\n")
  {
  }

  /**
   * Logger: a record in its own LogStream. The constructor writes the
   * start of the record; the caller's text is streamed in between; the
   * destructor writes the end and, for a fatal record, flushes and aborts.
   */
  class Logger {
    const stream: LogStream.LogStream
    const fileName: SourceFileName
    const line: int
    const isFatal: bool

    constructor (sinks: LogStream.Sinks, fileName: SourceFileName, line: int, level: LogLevel, tag: string,
                 isFatal: bool, stamp: string, pid: string, tid: string)
      requires sinks.hasOutput
      modifies sinks
      ensures stream.Valid() && stream.sinks == sinks && fresh(stream.buf) && fresh(stream.buf.data)
      ensures this.fileName == fileName && this.line == line && this.isFatal == isFatal
      ensures stream.Logged() == LogStream.Emitted(old(sinks.events)) + RecordStart(stamp, pid, tid, tag, level)
    {
      this.fileName := fileName;
      this.line := line;
      this.isFatal := isFatal;
      stream := new LogStream.LogStream(sinks);
      new;
      stream.Append(RecordStart(stamp, pid, tid, tag, level));
    }

    /**
     * ~Logger: the record ends with RecordEnd; a fatal record is then
     * flushed (the flush function runs last) and the process aborts.
     */
    method Finish(hideFileLine: bool) returns (aborted: bool)
      requires stream.Valid() && fileName.Valid() && stream.sinks.hasOutput
      requires -0x8000_0000 <= line < 0x8000_0000
      modifies stream.buf, stream.buf.data, stream.sinks`events
      ensures stream.Valid() && aborted == isFatal
      ensures stream.Logged() == old(stream.Logged()) + RecordEnd(old(fileName.Text()), line, hideFileLine)
      ensures isFatal && stream.sinks.hasFlush ==>
        |stream.sinks.events| > 0 && stream.sinks.events[|stream.sinks.events| - 1] == LogStream.Flushed
    {
      ghost var logged := stream.Logged();
      ghost var name := fileName.Text();
      if !hideFileLine {
        WriteFileLine();
        RegroupFileLine(logged, name, SignedDec(line));
      }
      stream.Append("\n");
      aborted := false;
      if isFatal {
        stream.Flush();
        aborted := true;
      }
    }

    /** The " -- <file>:<line>" part of the record end. */
    method WriteFileLine()
      requires stream.Valid() && fileName.Valid() && stream.sinks.hasOutput
      requires -0x8000_0000 <= line < 0x8000_0000
      modifies stream.buf, stream.buf.data, stream.sinks`events
      ensures stream.Valid()
      ensures stream.Logged() == old(stream.Logged()) + " -- " + old(fileName.Text()) + ":" + SignedDec(line)
    {
      var name := fileName.buf[..fileName.len];
      stream.Append(" -- ");
      stream.Append(name);
      stream.Append(":");
      var written := stream.PutInteger(line);
    }
  }
}
