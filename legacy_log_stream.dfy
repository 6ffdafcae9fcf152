/**
 * The older log record formatter (wind/LogStream.cpp) over the older buffer
 * (wind/Buffer.h). Output, flush and the chunked append behave as in the
 * newer stream; the integer conversion writes no terminator, and there is no
 * pointer overload.
 */
module LegacyLogStream {
  import opened Numerals
  import CInt
  import Seqs
  import opened LegacyBuffer
  import Fmt = LogStream

  const MAX_NUMERIC_SIZE: nat := 32

  /**
   * convertDigitToString: the decimal text of inValue at outBuf[at..],
   * without a terminator; returns its length.
   */
  method ConvertDigitToString(outBuf: array<char>, at: nat, inValue: int) returns (len: nat)
    requires Fmt.IsInt64(inValue) || Fmt.IsUInt64(inValue)
    requires at + |SignedDec(inValue)| <= outBuf.Length
    modifies outBuf
    ensures len == |SignedDec(inValue)|
    ensures outBuf[at..at + len] == SignedDec(inValue)
    ensures forall i :: 0 <= i < outBuf.Length && !(at <= i < at + len) ==> outBuf[i] == old(outBuf[i])
    ensures outBuf[..at + len] == old(outBuf[..at]) + SignedDec(inValue)
  {
    ghost var before := outBuf[..];
    ghost var text := SignedDec(inValue);
    var end := Fmt.SignedDigitsBackwards(outBuf, at, inValue);
    Fmt.ReverseBackwards(outBuf, at, end, text);
    len := end - at;
    Fmt.WrittenAfter(before, outBuf[..], at, text);
  }

  class LogStream {
    const buf: FixedSizeBuffer
    const sinks: Fmt.Sinks

    ghost predicate Valid()
      reads this, buf
    {
      buf.Valid() && buf.Capacity() == DEFAULT_BUFFER_SIZE
    }

    function Buffered(): string
      reads this, buf, buf.data
      requires Valid()
    {
      buf.ToString()
    }

    /** All text so far: what has been output followed by what is still buffered. */
    ghost function Logged(): string
      reads this, buf, buf.data, sinks
      requires Valid()
    {
      Fmt.Emitted(sinks.events) + Buffered()
    }

    /** The buffer's characters start out unspecified. */
    constructor (sinks: Fmt.Sinks, garbage: char)
      ensures Valid() && fresh(buf) && fresh(buf.data) && this.sinks == sinks
      ensures Buffered() == []
    {
      buf := new FixedSizeBuffer(DEFAULT_BUFFER_SIZE, garbage);
      this.sinks := sinks;
    }

    /** output(): hands the buffered text to the output function and empties the buffer; nothing without one. */
    method Output()
      requires Valid()
      modifies buf, sinks`events
      ensures Valid() && Logged() == old(Logged())
      ensures old(sinks.hasOutput) ==> sinks.events == old(sinks.events) + [Fmt.Wrote(old(Buffered()))] && Buffered() == []
      ensures !old(sinks.hasOutput) ==> sinks.events == old(sinks.events) && buf.curr == old(buf.curr)
    {
      if !sinks.hasOutput {
        return;
      }
      sinks.events := sinks.events + [Fmt.Wrote(buf.ToString())];
      Fmt.EmittedAppend(old(sinks.events), Fmt.Wrote(old(Buffered())));
      buf.Reset();
    }

    /** flush(): the buffered text is output before the flush function runs. */
    method Flush()
      requires Valid()
      modifies buf, sinks`events
      ensures Valid() && Logged() == old(Logged())
      ensures var out := if old(sinks.hasOutput) then [Fmt.Wrote(old(Buffered()))] else [];
        sinks.events == old(sinks.events) + out + (if old(sinks.hasFlush) then [Fmt.Flushed] else [])
    {
      Output();
      if !sinks.hasFlush {
        return;
      }
      ghost var before := sinks.events;
      sinks.events := sinks.events + [Fmt.Flushed];
      Fmt.EmittedAppend(before, Fmt.Flushed);
    }

    /** The destructor outputs whatever is buffered. */
    method Destroy()
      requires Valid()
      modifies buf, sinks`events
      ensures Valid() && Logged() == old(Logged())
      ensures old(sinks.hasOutput) ==> sinks.events == old(sinks.events) + [Fmt.Wrote(old(Buffered()))]
    {
      Output();
    }

    /** Outputs the buffer first when fewer than MAX_NUMERIC_SIZE characters are free. */
    method PreProcessWithNumericInput()
      requires Valid()
      modifies buf, sinks`events
      ensures Valid() && Logged() == old(Logged())
      ensures old(buf.Available()) < MAX_NUMERIC_SIZE && old(sinks.hasOutput) ==>
        sinks.events == old(sinks.events) + [Fmt.Wrote(old(Buffered()))] && Buffered() == []
      ensures old(buf.Available()) >= MAX_NUMERIC_SIZE || !old(sinks.hasOutput) ==>
        sinks.events == old(sinks.events) && buf.curr == old(buf.curr)
    {
      if buf.Available() < MAX_NUMERIC_SIZE {
        Output();
      }
    }

    /** buf_.append of text that fits: it lands in the buffer, nothing is output. */
    method Store(text: string)
      requires Valid() && |text| <= buf.Available()
      modifies buf, buf.data
      ensures Valid() && Buffered() == old(Buffered()) + text && Logged() == old(Logged()) + text
      ensures buf.curr == old(buf.curr) + |text|
    {
      buf.Append(text);
      assert text[..|text|] == text;
    }

    /**
     * append(data, len): what fits goes into the buffer; otherwise the
     * buffer is filled and output repeatedly until the rest fits, which
     * needs an output function.
     */
    method Append(data: string)
      requires Valid()
      requires |data| > buf.Available() ==> sinks.hasOutput
      modifies buf, buf.data, sinks`events
      ensures Valid() && Logged() == old(Logged()) + data
      ensures Fmt.OutputsSince(old(sinks.events), sinks.events)
      ensures |data| <= old(buf.Available()) ==> sinks.events == old(sinks.events)
    {
      if |data| <= buf.Available() {
        Store(data);
      } else {
        AppendInChunks(data);
      }
    }

    /** The do-while branch of append. */
    method AppendInChunks(data: string)
      requires Valid() && sinks.hasOutput && |data| > buf.Available()
      modifies buf, buf.data, sinks`events
      ensures Valid() && Logged() == old(Logged()) + data
      ensures Fmt.OutputsSince(old(sinks.events), sinks.events)
    {
      ghost var events := sinks.events;
      var offset: nat := buf.Available();
      AppendChunk(data[..offset]);
      Fmt.OutputsSinceNothing(events);
      Fmt.OutputsSinceSnoc(events, events, old(Buffered()) + data[..offset]);
      while buf.Available() < |data| - offset
        invariant Valid() && buf.curr == 0 && offset <= |data|
        invariant Logged() == old(Logged()) + data[..offset]
        invariant Fmt.OutputsSince(old(sinks.events), sinks.events)
        decreases |data| - offset
      {
        var writeBytes := buf.Available();
        events := sinks.events;
        AppendChunk(data[offset..offset + writeBytes]);
        Fmt.OutputsSinceSnoc(old(sinks.events), events, data[offset..offset + writeBytes]);
        assert data[..offset + writeBytes] == data[..offset] + data[offset..offset + writeBytes];
        Seqs.AppendAssoc(old(Logged()), data[..offset], data[offset..offset + writeBytes]);
        offset := offset + writeBytes;
      }
      if |data| - offset > 0 {
        Store(data[offset..]);
      }
      assert data[..offset] + data[offset..] == data;
      Seqs.AppendAssoc(old(Logged()), data[..offset], data[offset..]);
    }

    /** One pass of append's do-while: fill the free space with chunk, then output the full buffer. */
    method AppendChunk(chunk: string)
      requires Valid() && sinks.hasOutput && |chunk| == buf.Available()
      modifies buf, buf.data, sinks`events
      ensures Valid() && Logged() == old(Logged()) + chunk && buf.curr == 0
      ensures sinks.events == old(sinks.events) + [Fmt.Wrote(old(Buffered()) + chunk)]
    {
      Store(chunk);
      Output();
    }

    /** The write position moved over `text`, which a conversion has just written in place. */
    method AddWritten(len: nat, ghost text: string)
      requires Valid() && len == |text| <= buf.Available()
      requires buf.data[..buf.curr + len] == Buffered() + text
      modifies buf
      ensures Valid() && Buffered() == old(Buffered()) + text
      ensures Logged() == old(Logged()) + text
    {
      buf.curr := buf.curr + len;
    }

    /** convertDigitToString at the cursor, then the cursor moves past the text. */
    method WriteDecimal(v: int)
      requires Valid() && (Fmt.IsInt64(v) || Fmt.IsUInt64(v)) && |SignedDec(v)| <= buf.Available()
      modifies buf, buf.data
      ensures Valid() && Buffered() == old(Buffered()) + SignedDec(v)
      ensures Logged() == old(Logged()) + SignedDec(v)
    {
      ghost var text := SignedDec(v);
      var len := ConvertDigitToString(buf.data, buf.curr, v);
      AddWritten(len, text);
    }

    /**
     * operator<<(int64_t) and operator<<(uint64_t). Without an output
     * function a nearly full buffer is not emptied, and the conversion would
     * write past its end: the model reports that as `written == false` and
     * writes nothing.
     */
    method PutInteger(v: int) returns (written: bool)
      requires Valid()
      requires Fmt.IsInt64(v) || Fmt.IsUInt64(v)
      modifies buf, buf.data, sinks`events
      ensures Valid()
      ensures written <==> old(sinks.hasOutput) || |SignedDec(v)| <= old(buf.Available())
      ensures written ==> Logged() == old(Logged()) + SignedDec(v)
      ensures !written ==> Logged() == old(Logged()) && buf.curr == old(buf.curr)
      ensures old(buf.Available()) < MAX_NUMERIC_SIZE && old(sinks.hasOutput) ==>
        sinks.events == old(sinks.events) + [Fmt.Wrote(old(Buffered()))]
      ensures old(buf.Available()) >= MAX_NUMERIC_SIZE || !old(sinks.hasOutput) ==> sinks.events == old(sinks.events)
    {
      Fmt.SignedDecLength(v);
      ghost var avail := buf.Available();
      PreProcessWithNumericInput();
      if avail >= MAX_NUMERIC_SIZE || !old(sinks.hasOutput) {
        assert buf.curr == old(buf.curr);
      } else {
        assert |Buffered()| == 0;
        assert buf.Available() == DEFAULT_BUFFER_SIZE;
      }
      if |SignedDec(v)| > buf.Available() {
        written := false;
        return;
      }
      WriteDecimal(v);
      written := true;
    }
  }
}
