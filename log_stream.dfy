/**
 * The log record formatter (wind/base/LogStream.cpp): text is collected in a
 * fixed 4096-character buffer and handed to the process-wide output
 * function when the buffer fills, on flush and when the stream ends.
 * Integers are written in decimal through a digit table symmetric around
 * zero, so the most negative 64-bit value needs no negation; pointers are
 * written in lower-case hexadecimal after "0x".
 */
module LogStream {
  import opened Wrappers
  import opened Numerals
  import opened Seqs
  import CInt
  import opened FixedSizeBuffer

  const MAX_NUMERIC_SIZE: nat := 32
  /** The digit table of digitToChar; index 9 is zero. */
  const DIGITS: string := "9876543210123456789"
  const ZERO_IDX: int := 9
  /** The hexadecimal tables of hexDigitToChar, each ending with its string terminator. */
  const HEX_DIGITS: string := "0123456789abcdef\0"
  const HEX_DIGITS_UPPER: string := "0123456789ABCDEF\0"

  predicate IsInt64(v: int)
  {
    -0x8000_0000_0000_0000 <= v < 0x8000_0000_0000_0000
  }

  predicate IsUInt64(v: int)
  {
    0 <= v < 0x1_0000_0000_0000_0000
  }

  /** The digit of a remainder of C division by 10, which may be negative. */
  function DigitToChar(idx: int): (c: char)
    requires -10 < idx < 10
    ensures c == DECIMAL[CInt.Abs(idx)]
  {
    DIGITS[ZERO_IDX + idx]
  }

  /** Index 16 is allowed and yields the terminator of the table. */
  function HexDigitToChar(idx: int, upper: bool): (c: char)
    requires 0 <= idx < 17
    ensures idx < 16 ==> c == (if upper then HEX_UPPER else HEX_LOWER)[idx]
    ensures idx == 16 ==> c == '\0'
  {
    if upper then HEX_DIGITS_UPPER[idx] else HEX_DIGITS[idx]
  }

  lemma {:induction false} PowAdd(b: nat, i: nat, j: nat)
    ensures Pow(b, i + j) == Pow(b, i) * Pow(b, j)
    decreases i
  {
    if i > 0 {
      PowAdd(b, i - 1, j);
      assert Pow(b, i + j) == b * Pow(b, i - 1 + j);
      MulAssoc(b, Pow(b, i - 1), Pow(b, j));
    }
  }

  lemma PowSquare(b: nat, i: nat)
    ensures Pow(b, 2 * i) == Pow(b, i) * Pow(b, i)
    ensures Pow(b, 1) == b
  {
    PowAdd(b, i, i);
  }

  /** The decimal text of a 64-bit value never exceeds 20 characters. */
  lemma SignedDecLength(v: int)
    requires IsInt64(v) || IsUInt64(v)
    ensures |SignedDec(v)| <= 20 < MAX_NUMERIC_SIZE
  {
    PowSquare(10, 1);
    PowSquare(10, 2);
    PowSquare(10, 4);
    PowSquare(10, 8);
    PowAdd(10, 16, 2);
    PowAdd(10, 18, 1);
    PowAdd(10, 16, 4);
    assert Pow(10, 19) == 10_000_000_000_000_000_000;
    assert Pow(10, 20) == 100_000_000_000_000_000_000;
    if v < 0 {
      DecLength(-v, 19);
    } else {
      DecLength(v, 20);
    }
  }

  /** Lower-case hexadecimal text, no leading zeros, "0" for zero. */
  function Hex(n: nat): string
  {
    Text(n, 16, HEX_LOWER)
  }

  /** The hexadecimal text of a 64-bit pointer never exceeds 16 characters. */
  lemma HexLength(p: nat)
    requires IsUInt64(p)
    ensures |Hex(p)| <= 16
  {
    PowSquare(16, 1);
    PowSquare(16, 2);
    PowSquare(16, 4);
    PowSquare(16, 8);
    assert Pow(16, 16) == 0x1_0000_0000_0000_0000;
    TextLength(p, 16, HEX_LOWER, 16);
  }

  /** One round of the decimal loop peels the last digit off the magnitude. */
  lemma DecStep(tmp: int)
    ensures CInt.Abs(CInt.Div(tmp, 10)) == CInt.Abs(tmp) / 10
    ensures CInt.Abs(CInt.Rem(tmp, 10)) == CInt.Abs(tmp) % 10
    ensures Dec(CInt.Abs(tmp)) ==
      (if CInt.Div(tmp, 10) == 0 then [] else Dec(CInt.Abs(CInt.Div(tmp, 10)))) + [DECIMAL[CInt.Abs(tmp) % 10]]
  {
  }

  /** One round of the hexadecimal loop peels the last digit off. */
  lemma HexStep(tmp: nat)
    ensures Hex(tmp) == (if tmp / 16 == 0 then [] else Hex(tmp / 16)) + [HEX_LOWER[tmp % 16]]
  {
  }

  /** outBuf[at..end] holds text back to front. */
  ghost predicate Backwards(outBuf: array<char>, at: nat, end: nat, text: string)
    reads outBuf
  {
    at <= end <= outBuf.Length && end - at == |text| &&
    forall k :: at <= k < end ==> outBuf[k] == text[|text| - 1 - (k - at)]
  }

  /**
   * One more character written after text held back to front: it becomes
   * the new first character of the text.
   */
  method PrependBackwards(outBuf: array<char>, at: nat, end: nat, ghost text: string, c: char)
    requires Backwards(outBuf, at, end, text) && end < outBuf.Length
    modifies outBuf
    ensures Backwards(outBuf, at, end + 1, [c] + text)
    ensures forall i :: 0 <= i < outBuf.Length && i != end ==> outBuf[i] == old(outBuf[i])
  {
    outBuf[end] := c;
    ghost var longer := [c] + text;
    forall k | at <= k < end + 1
      ensures outBuf[k] == longer[|longer| - 1 - (k - at)]
    {
      if k < end {
        assert outBuf[k] == old(outBuf[k]);
      }
    }
  }

  /** The digit loop of convertDigitToString: least significant digit first. */
  method DecimalDigitsBackwards(outBuf: array<char>, at: nat, inValue: int) returns (end: nat)
    requires at + |Dec(CInt.Abs(inValue))| <= outBuf.Length
    modifies outBuf
    ensures Backwards(outBuf, at, end, Dec(CInt.Abs(inValue)))
    ensures forall i :: 0 <= i < outBuf.Length && !(at <= i < end) ==> outBuf[i] == old(outBuf[i])
  {
    ghost var digits := Dec(CInt.Abs(inValue));
    ghost var tail: string := [];
    end := at;
    var tmp := inValue;
    var more := true;
    while more
      invariant Backwards(outBuf, at, end, tail)
      invariant more ==> Dec(CInt.Abs(tmp)) + tail == digits
      invariant !more ==> tail == digits
      invariant forall i :: 0 <= i < outBuf.Length && !(at <= i < end) ==> outBuf[i] == old(outBuf[i])
      decreases if more then CInt.Abs(tmp) + 1 else 0
    {
      DecStep(tmp);
      var remainder := CInt.Rem(tmp, 10);
      tmp := CInt.Div(tmp, 10);
      var c := DigitToChar(remainder);
      PrependBackwards(outBuf, at, end, tail, c);
      if tmp != 0 {
        AppendAssoc(Dec(CInt.Abs(tmp)), [c], tail);
      }
      tail := [c] + tail;
      end := end + 1;
      more := tmp != 0;
    }
  }

  /** The digit loop of convertPointerToString: least significant digit first. */
  method HexDigitsBackwards(outBuf: array<char>, at: nat, p: nat) returns (end: nat)
    requires at + |Hex(p)| <= outBuf.Length
    modifies outBuf
    ensures Backwards(outBuf, at, end, Hex(p))
    ensures forall i :: 0 <= i < outBuf.Length && !(at <= i < end) ==> outBuf[i] == old(outBuf[i])
  {
    ghost var digits := Hex(p);
    ghost var tail: string := [];
    end := at;
    var tmp := p;
    var more := true;
    while more
      invariant Backwards(outBuf, at, end, tail)
      invariant more ==> Hex(tmp) + tail == digits
      invariant !more ==> tail == digits
      invariant forall i :: 0 <= i < outBuf.Length && !(at <= i < end) ==> outBuf[i] == old(outBuf[i])
      decreases if more then tmp + 1 else 0
    {
      HexStep(tmp);
      var remainder := tmp % 16;
      tmp := tmp / 16;
      var c := HexDigitToChar(remainder, false);
      PrependBackwards(outBuf, at, end, tail, c);
      if tmp != 0 {
        AppendAssoc(Hex(tmp), [c], tail);
      }
      tail := [c] + tail;
      end := end + 1;
      more := tmp != 0;
    }
  }

  /** The digits, then the sign of a negative value: the decimal text back to front. */
  method SignedDigitsBackwards(outBuf: array<char>, at: nat, inValue: int) returns (end: nat)
    requires at + |SignedDec(inValue)| <= outBuf.Length
    modifies outBuf
    ensures Backwards(outBuf, at, end, SignedDec(inValue))
    ensures forall i :: 0 <= i < outBuf.Length && !(at <= i < end) ==> outBuf[i] == old(outBuf[i])
  {
    end := DecimalDigitsBackwards(outBuf, at, inValue);
    if inValue < 0 {
      PrependBackwards(outBuf, at, end, Dec(-inValue), '-');
      end := end + 1;
    }
  }

  /** std::reverse(start, end) turns the backwards digits into the text. */
  method ReverseBackwards(outBuf: array<char>, at: nat, end: nat, ghost text: string)
    requires Backwards(outBuf, at, end, text)
    modifies outBuf
    ensures outBuf[at..end] == text
    ensures forall i :: 0 <= i < outBuf.Length && !(at <= i < end) ==> outBuf[i] == old(outBuf[i])
  {
    ghost var before := outBuf[..];
    BackwardsReversed(outBuf, at, end, text);
    assert before[at..end] == Reverse(text);
    ReverseRange(outBuf, at, end);
    ReversedSlice(before, outBuf[..], at, end);
    ReverseReverse(text);
    assert outBuf[at..end] == outBuf[..][at..end];
  }

  /** Text held back to front is the reverse of the text. */
  lemma BackwardsReversed(outBuf: array<char>, at: nat, end: nat, text: string)
    requires Backwards(outBuf, at, end, text)
    ensures outBuf[at..end] == Reverse(text)
  {
    var r := Reverse(text);
    forall i | 0 <= i < end - at
      ensures outBuf[at..end][i] == r[i]
    {
      assert outBuf[at..end][i] == outBuf[at + i];
    }
  }

  /** The common tail of both conversions: terminate, then reverse the digits. */
  method TerminateAndReverse(outBuf: array<char>, at: nat, end: nat, ghost text: string) returns (len: nat)
    requires Backwards(outBuf, at, end, text) && end < outBuf.Length
    modifies outBuf
    ensures len == |text| && at + len == end
    ensures outBuf[at..at + len] == text && outBuf[at + len] == '\0'
    ensures forall i :: 0 <= i < outBuf.Length && !(at <= i <= at + len) ==> outBuf[i] == old(outBuf[i])
  {
    outBuf[end] := '\0';
    ReverseBackwards(outBuf, at, end, text);
    len := end - at;
  }

  /**
   * convertDigitToString: writes the decimal text of inValue at outBuf[at..],
   * NUL-terminates it and returns its length. The caller keeps room for it.
   */
  method ConvertDigitToString(outBuf: array<char>, at: nat, inValue: int) returns (len: nat)
    requires IsInt64(inValue) || IsUInt64(inValue)
    requires at + |SignedDec(inValue)| < outBuf.Length
    modifies outBuf
    ensures len == |SignedDec(inValue)|
    ensures outBuf[at..at + len] == SignedDec(inValue) && outBuf[at + len] == '\0'
    ensures forall i :: 0 <= i < outBuf.Length && !(at <= i <= at + len) ==> outBuf[i] == old(outBuf[i])
    ensures outBuf[..at + len] == old(outBuf[..at]) + SignedDec(inValue)
  {
    ghost var before := outBuf[..];
    ghost var text := SignedDec(inValue);
    var end := SignedDigitsBackwards(outBuf, at, inValue);
    len := TerminateAndReverse(outBuf, at, end, text);
    WrittenAfter(before, outBuf[..], at, text);
  }

  /** convertPointerToString: lower-case hexadecimal, no leading zeros, NUL-terminated. */
  method ConvertPointerToString(outBuf: array<char>, at: nat, p: nat) returns (len: nat)
    requires IsUInt64(p)
    requires at + |Hex(p)| < outBuf.Length
    modifies outBuf
    ensures len == |Hex(p)|
    ensures outBuf[at..at + len] == Hex(p) && outBuf[at + len] == '\0'
    ensures forall i :: 0 <= i < outBuf.Length && !(at <= i <= at + len) ==> outBuf[i] == old(outBuf[i])
    ensures outBuf[..at + len] == old(outBuf[..at]) + Hex(p)
  {
    ghost var before := outBuf[..];
    ghost var text := Hex(p);
    var end := HexDigitsBackwards(outBuf, at, p);
    len := TerminateAndReverse(outBuf, at, end, text);
    WrittenAfter(before, outBuf[..], at, text);
  }

  /**
   * A conversion that leaves the prefix alone and writes text right after
   * it makes prefix + text the start of the array.
   */
  lemma WrittenAfter(before: seq<char>, after: seq<char>, at: nat, text: string)
    requires |before| == |after| && at + |text| <= |after|
    requires after[at..at + |text|] == text
    requires forall i :: 0 <= i < at ==> after[i] == before[i]
    ensures after[..at + |text|] == before[..at] + text
  {
    assert after[..at + |text|] == after[..at] + after[at..at + |text|];
  }

  /** What the output and flush functions received, in order. */
  datatype SinkEvent = Wrote(text: string) | Flushed

  /** Everything handed to the output function, concatenated. */
  function Emitted(events: seq<SinkEvent>): string
  {
    if events == [] then []
    else Emitted(events[..|events| - 1]) + (match events[|events| - 1] case Wrote(t) => t case Flushed => [])
  }

  lemma EmittedAppend(events: seq<SinkEvent>, e: SinkEvent)
    ensures Emitted(events + [e]) == Emitted(events) + (match e case Wrote(t) => t case Flushed => [])
  {
    assert (events + [e])[..|events|] == events;
  }

  /**
   * The process-wide outputFunc_ and flushFunc_ (both set to stdout writers
   * initially, either may be set to null), and the calls they received.
   */
  class Sinks {
    var hasOutput: bool
    var hasFlush: bool
    var events: seq<SinkEvent>

    constructor ()
      ensures hasOutput && hasFlush && events == []
    {
      hasOutput := true;
      hasFlush := true;
      events := [];
    }

    method SetOutputFunc(present: bool)
      modifies this
      ensures hasOutput == present && hasFlush == old(hasFlush) && events == old(events)
    {
      hasOutput := present;
    }

    method SetFlushFunc(present: bool)
      modifies this
      ensures hasFlush == present && hasOutput == old(hasOutput) && events == old(events)
    {
      hasFlush := present;
    }
  }

  /** Every event from index k on is a call of the output function. */
  ghost predicate OnlyOutputsFrom(events: seq<SinkEvent>, k: nat)
  {
    k <= |events| && forall i :: k <= i < |events| ==> events[i].Wrote?
  }

  /** Since `before`, the log has only grown, and only by calls of the output function. */
  ghost predicate OutputsSince(before: seq<SinkEvent>, events: seq<SinkEvent>)
  {
    |before| <= |events| && events[..|before|] == before && OnlyOutputsFrom(events, |before|)
  }

  lemma OutputsSinceNothing(events: seq<SinkEvent>)
    ensures OutputsSince(events, events)
  {
  }

  /** One more output keeps the log growing by outputs only. */
  lemma OutputsSinceSnoc(before: seq<SinkEvent>, events: seq<SinkEvent>, text: string)
    requires OutputsSince(before, events)
    ensures OutputsSince(before, events + [Wrote(text)])
  {
    var after := events + [Wrote(text)];
    assert after[..|before|] == events[..|before|];
    forall i | |before| <= i < |after|
      ensures after[i].Wrote?
    {
      if i < |events| {
        assert after[i] == events[i];
      }
    }
  }

  /**
   * The chunk loop of append as a step on (buffered length, consumed input):
   * fill what is available, advance, then output, which empties the buffer
   * only when an output function is set.
   */
  datatype ChunkState = ChunkState(used: nat, offset: nat)

  function ChunkStep(st: ChunkState, capacity: nat, hasOutput: bool): (next: ChunkState)
    requires st.used <= capacity
    ensures next.used <= capacity
  {
    ChunkState(if hasOutput then 0 else capacity, st.offset + (capacity - st.used))
  }

  /** The loop goes round again while fewer characters are free than remain. */
  predicate ChunkContinues(st: ChunkState, capacity: nat, len: nat)
  {
    st.used <= capacity && capacity - st.used < len - st.offset
  }

  /**
   * Without an output function the chunk loop never ends: after the first
   * round the state no longer changes and the loop condition still holds.
   */
  lemma NullSinkNeverTerminates(st: ChunkState, capacity: nat, len: nat)
    requires st.used <= capacity && st.offset + (capacity - st.used) < len
    ensures ChunkContinues(ChunkStep(st, capacity, false), capacity, len)
    ensures ChunkStep(ChunkStep(st, capacity, false), capacity, false) == ChunkStep(st, capacity, false)
  {
  }

  /** With an output function every round after the first consumes a whole buffer. */
  lemma SinkMakesProgress(st: ChunkState, capacity: nat)
    requires st.used <= capacity
    ensures ChunkStep(st, capacity, true).used == 0
    ensures ChunkStep(st, capacity, true).offset == st.offset + capacity - st.used
  {
  }

  class LogStream {
    const buf: FixedSizeBuffer
    const sinks: Sinks

    ghost predicate Valid()
      reads this, buf
    {
      buf.Valid() && buf.Capacity() == DEFAULT_BUFFER_SIZE
    }

    function Buffered(): string
      reads this, buf, buf.data
      requires Valid()
    {
      buf.ToString()
    }

    /** All text so far: what has been output followed by what is still buffered. */
    ghost function Logged(): string
      reads this, buf, buf.data, sinks
      requires Valid()
    {
      Emitted(sinks.events) + Buffered()
    }

    constructor (sinks: Sinks)
      ensures Valid() && fresh(buf) && fresh(buf.data) && this.sinks == sinks
      ensures Buffered() == []
    {
      buf := new FixedSizeBuffer(DEFAULT_BUFFER_SIZE);
      this.sinks := sinks;
    }

    /** output(): hands the buffered text to the output function and empties the buffer; nothing without one. */
    method Output()
      requires Valid()
      modifies buf, sinks`events
      ensures Valid() && Logged() == old(Logged())
      ensures old(sinks.hasOutput) ==> sinks.events == old(sinks.events) + [Wrote(old(Buffered()))] && Buffered() == []
      ensures !old(sinks.hasOutput) ==> sinks.events == old(sinks.events) && buf.curr == old(buf.curr)
    {
      if !sinks.hasOutput {
        return;
      }
      sinks.events := sinks.events + [Wrote(buf.ToString())];
      EmittedAppend(old(sinks.events), Wrote(old(Buffered())));
      buf.Reset();
    }

    /** flush(): the buffered text is output before the flush function runs. */
    method Flush()
      requires Valid()
      modifies buf, sinks`events
      ensures Valid() && Logged() == old(Logged())
      ensures var out := if old(sinks.hasOutput) then [Wrote(old(Buffered()))] else [];
        sinks.events == old(sinks.events) + out + (if old(sinks.hasFlush) then [Flushed] else [])
    {
      Output();
      if !sinks.hasFlush {
        return;
      }
      ghost var before := sinks.events;
      sinks.events := sinks.events + [Flushed];
      EmittedAppend(before, Flushed);
    }

    /** The destructor outputs whatever is buffered. */
    method Destroy()
      requires Valid()
      modifies buf, sinks`events
      ensures Valid() && Logged() == old(Logged())
      ensures old(sinks.hasOutput) ==> sinks.events == old(sinks.events) + [Wrote(old(Buffered()))]
    {
      Output();
    }

    /** Outputs the buffer first when fewer than MAX_NUMERIC_SIZE characters are free. */
    method PreProcessWithNumericInput()
      requires Valid()
      modifies buf, sinks`events
      ensures Valid() && Logged() == old(Logged())
      ensures old(buf.Available()) < MAX_NUMERIC_SIZE && old(sinks.hasOutput) ==>
        sinks.events == old(sinks.events) + [Wrote(old(Buffered()))] && Buffered() == []
      ensures old(buf.Available()) >= MAX_NUMERIC_SIZE || !old(sinks.hasOutput) ==>
        sinks.events == old(sinks.events) && buf.curr == old(buf.curr)
    {
      if buf.Available() < MAX_NUMERIC_SIZE {
        Output();
      }
    }

    /** buf_.append of text that fits: it lands in the buffer, nothing is output. */
    method Store(text: string)
      requires Valid() && |text| <= buf.Available()
      modifies buf, buf.data
      ensures Valid() && Buffered() == old(Buffered()) + text && Logged() == old(Logged()) + text
      ensures buf.curr == old(buf.curr) + |text|
    {
      buf.Append(Some(text));
      assert text[..|text|] == text;
    }

    /**
     * append(data, len): what fits goes into the buffer; otherwise the
     * buffer is filled and output repeatedly until the rest fits. The loop
     * ends only if output empties the buffer, hence the output function.
     */
    method Append(data: string)
      requires Valid()
      requires |data| > buf.Available() ==> sinks.hasOutput
      modifies buf, buf.data, sinks`events
      ensures Valid() && Logged() == old(Logged()) + data
      ensures OutputsSince(old(sinks.events), sinks.events)
      ensures |data| <= old(buf.Available()) ==> sinks.events == old(sinks.events)
    {
      if |data| <= buf.Available() {
        Store(data);
      } else {
        AppendInChunks(data);
      }
    }

    /** The do-while branch of append: fill, output, repeat while the rest does not fit. */
    method AppendInChunks(data: string)
      requires Valid() && sinks.hasOutput && |data| > buf.Available()
      modifies buf, buf.data, sinks`events
      ensures Valid() && Logged() == old(Logged()) + data
      ensures OutputsSince(old(sinks.events), sinks.events)
    {
      ghost var events := sinks.events;
      var offset: nat := buf.Available();
      AppendChunk(data[..offset]);
      OutputsSinceNothing(events);
      OutputsSinceSnoc(events, events, old(Buffered()) + data[..offset]);
      while buf.Available() < |data| - offset
        invariant Valid() && buf.curr == 0 && offset <= |data|
        invariant Logged() == old(Logged()) + data[..offset]
        invariant OutputsSince(old(sinks.events), sinks.events)
        decreases |data| - offset
      {
        var writeBytes := buf.Available();
        events := sinks.events;
        AppendChunk(data[offset..offset + writeBytes]);
        OutputsSinceSnoc(old(sinks.events), events, data[offset..offset + writeBytes]);
        assert data[..offset + writeBytes] == data[..offset] + data[offset..offset + writeBytes];
        AppendAssoc(old(Logged()), data[..offset], data[offset..offset + writeBytes]);
        offset := offset + writeBytes;
      }
      if |data| - offset > 0 {
        Store(data[offset..]);
      }
      assert data[..offset] + data[offset..] == data;
      AppendAssoc(old(Logged()), data[..offset], data[offset..]);
    }

    /** One pass of append's do-while: fill the free space with chunk, then output the full buffer. */
    method AppendChunk(chunk: string)
      requires Valid() && sinks.hasOutput && |chunk| == buf.Available()
      modifies buf, buf.data, sinks`events
      ensures Valid() && Logged() == old(Logged()) + chunk && buf.curr == 0
      ensures sinks.events == old(sinks.events) + [Wrote(old(Buffered()) + chunk)]
    {
      Store(chunk);
      Output();
    }

    /** buf_.grow(len) once a conversion has written `text` in place at the write position. */
    method AddWritten(len: nat, ghost text: string)
      requires Valid() && len == |text| < buf.Available()
      requires buf.data[..buf.curr + len] == Buffered() + text
      modifies buf
      ensures Valid() && Buffered() == old(Buffered()) + text
      ensures Logged() == old(Logged()) + text
    {
      buf.Grow(len);
    }

    /** convertDigitToString at buf_.curr() followed by buf_.grow(len). */
    method WriteDecimal(v: int)
      requires Valid() && (IsInt64(v) || IsUInt64(v)) && |SignedDec(v)| < buf.Available()
      modifies buf, buf.data
      ensures Valid() && Buffered() == old(Buffered()) + SignedDec(v)
      ensures Logged() == old(Logged()) + SignedDec(v)
    {
      ghost var text := SignedDec(v);
      var len := ConvertDigitToString(buf.data, buf.curr, v);
      AddWritten(len, text);
    }

    /** convertPointerToString at buf_.curr() followed by buf_.grow(len). */
    method WriteHex(p: nat)
      requires Valid() && IsUInt64(p) && |Hex(p)| < buf.Available()
      modifies buf, buf.data
      ensures Valid() && Buffered() == old(Buffered()) + Hex(p)
      ensures Logged() == old(Logged()) + Hex(p)
    {
      ghost var text := Hex(p);
      var len := ConvertPointerToString(buf.data, buf.curr, p);
      AddWritten(len, text);
    }

    /**
     * operator<<(int64_t) and operator<<(uint64_t), to which the narrower
     * integer types widen. Without an output function a nearly full buffer
     * is not emptied, and the conversion would write past its end: the
     * model reports that as `written == false` and writes nothing.
     */
    method PutInteger(v: int) returns (written: bool)
      requires Valid()
      requires IsInt64(v) || IsUInt64(v)
      modifies buf, buf.data, sinks`events
      ensures Valid()
      ensures written <==> old(sinks.hasOutput) || |SignedDec(v)| < old(buf.Available())
      ensures written ==> Logged() == old(Logged()) + SignedDec(v)
      ensures !written ==> Logged() == old(Logged()) && buf.curr == old(buf.curr)
      ensures old(buf.Available()) < MAX_NUMERIC_SIZE && old(sinks.hasOutput) ==>
        sinks.events == old(sinks.events) + [Wrote(old(Buffered()))]
      ensures old(buf.Available()) >= MAX_NUMERIC_SIZE || !old(sinks.hasOutput) ==> sinks.events == old(sinks.events)
    {
      SignedDecLength(v);
      ghost var avail := buf.Available();
      PreProcessWithNumericInput();
      if avail >= MAX_NUMERIC_SIZE || !old(sinks.hasOutput) {
        assert buf.curr == old(buf.curr);
      } else {
        assert |Buffered()| == 0;
        assert buf.Available() == DEFAULT_BUFFER_SIZE;
      }
      if |SignedDec(v)| >= buf.Available() {
        written := false;
        return;
      }
      WriteDecimal(v);
      written := true;
    }

    /**
     * operator<<(const void *): "0x" and then the address in hexadecimal.
     * The "0x" goes through append, whose loop needs an output function
     * when it does not fit; the hexadecimal text then overflows as in
     * PutInteger, which the model reports as `written == false`.
     */
    method PutPointer(p: nat) returns (written: bool)
      requires Valid()
      requires IsUInt64(p)
      requires 2 > buf.Available() ==> sinks.hasOutput
      modifies buf, buf.data, sinks`events
      ensures Valid()
      ensures written <==> old(sinks.hasOutput) || 2 + |Hex(p)| < old(buf.Available())
      ensures written ==> Logged() == old(Logged()) + "0x" + Hex(p)
      ensures !written ==> Logged() == old(Logged()) + "0x"
    {
      HexLength(p);
      Append("0x");
      ghost var logged := Logged();
      ghost var avail := buf.Available();
      ghost var curr := buf.curr;
      PreProcessWithNumericInput();
      if avail >= MAX_NUMERIC_SIZE || !sinks.hasOutput {
        assert buf.curr == curr;
      } else {
        assert |Buffered()| == 0;
        assert buf.Available() == DEFAULT_BUFFER_SIZE;
      }
      if |Hex(p)| >= buf.Available() {
        written := false;
        return;
      }
      WriteHex(p);
      written := true;
      assert Logged() == logged + Hex(p);
    }

    /** endl: a newline, then flush. */
    method Endl()
      requires Valid()
      requires 1 > buf.Available() ==> sinks.hasOutput
      modifies buf, buf.data, sinks`events
      ensures Valid() && Logged() == old(Logged()) + "\n"
      ensures old(sinks.hasFlush) ==> |sinks.events| > 0 && sinks.events[|sinks.events| - 1] == Flushed
    {
      Append("\n");
      Flush();
    }
  }
}
