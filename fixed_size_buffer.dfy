/**
 * The fixed-capacity character buffer used for log formatting
 * (wind/base/FixedSizeBuffer.h). `curr` is the write position inside the
 * array; appends that do not fit are silently truncated.
 */
module FixedSizeBuffer {
  import opened Wrappers

  const DEFAULT_BUFFER_SIZE: nat := 4096
  const LARGE_BUFFER_SIZE: nat := DEFAULT_BUFFER_SIZE * 1024

  /** strlen: the position of the first NUL of a C string. */
  function StrLen(mem: seq<char>): (k: nat)
    requires '\0' in mem
    ensures k < |mem| && mem[k] == '\0'
    ensures forall i :: 0 <= i < k ==> mem[i] != '\0'
  {
    if mem[0] == '\0' then 0 else 1 + StrLen(mem[1..])
  }

  function Min(a: nat, b: nat): nat
  {
    if a > b then b else a
  }

  class FixedSizeBuffer {
    const data: array<char>
    var curr: nat

    ghost predicate Valid()
      reads this
    {
      curr <= data.Length
    }

    function Capacity(): nat
      reads this
    {
      data.Length
    }

    function Length(): (k: nat)
      reads this
      requires Valid()
      ensures k <= Capacity()
    {
      curr
    }

    /** Room left; length and available always add up to the capacity. */
    function Available(): (k: nat)
      reads this
      requires Valid()
      ensures Length() + k == Capacity()
    {
      data.Length - curr
    }

    /** The characters written so far. */
    function ToString(): (s: string)
      reads this, data
      requires Valid()
      ensures |s| == Length()
    {
      data[..curr]
    }

    /** A zero-filled buffer of BUF_SIZE characters, nothing written. */
    constructor (bufSize: nat)
      ensures Valid() && fresh(data) && data.Length == bufSize && curr == 0
      ensures Length() == 0 && Available() == bufSize
      ensures forall i :: 0 <= i < bufSize ==> data[i] == '\0'
    {
      data := new char[bufSize](_ => '\0');
      curr := 0;
    }

    /** Advances the write position over characters written through the array directly. */
    method Grow(len: nat)
      requires Valid() && len < Available()
      modifies this`curr
      ensures Valid() && curr == old(curr) + len
    {
      curr := curr + len;
    }

    method Reset()
      requires Valid()
      modifies this`curr
      ensures Valid() && curr == 0 && Available() == Capacity()
    {
      curr := 0;
    }

    /** Zeroes every character, then resets. */
    method Clean()
      requires Valid()
      modifies this`curr, data
      ensures Valid() && curr == 0
      ensures forall i :: 0 <= i < data.Length ==> data[i] == '\0'
    {
      var i := 0;
      while i < data.Length
        invariant 0 <= i <= data.Length && curr == old(curr)
        invariant forall j :: 0 <= j < i ==> data[j] == '\0'
      {
        data[i] := '\0';
        i := i + 1;
      }
      Reset();
    }

    /**
     * append(s, len): nothing for a null pointer or an empty string;
     * otherwise as many leading characters as fit are copied at `curr`.
     */
    method Append(s: Option<seq<char>>)
      requires Valid()
      modifies this`curr, data
      ensures Valid()
      ensures s.None? || s.value == [] ==> curr == old(curr) && data[..] == old(data[..])
      ensures s.Some? ==>
        var k := Min(|s.value|, old(Available()));
        && curr == old(curr) + k
        && ToString() == old(ToString()) + s.value[..k]
        && data[curr..] == old(data[..])[curr..]
    {
      if s.None? || |s.value| == 0 {
        return;
      }
      var src := s.value;
      var bytesToWrite := if Available() > |src| then |src| else Available();
      var i := 0;
      while i < bytesToWrite
        invariant 0 <= i <= bytesToWrite && curr == old(curr)
        invariant forall j :: 0 <= j < data.Length ==>
          data[j] == if curr <= j < curr + i then src[j - curr] else old(data[j])
      {
        data[curr + i] := src[i];
        i := i + 1;
      }
      curr := curr + bytesToWrite;
      assert ToString() == old(ToString()) + src[..bytesToWrite];
      assert data[curr..] == old(data[..])[curr..] by {
        forall j | curr <= j < data.Length
          ensures data[j] == old(data[j])
        {
        }
      }
    }

    /** append(const char *): a null pointer adds nothing, otherwise the text up to the NUL. */
    method AppendCStr(s: Option<seq<char>>)
      requires Valid()
      requires s.Some? ==> '\0' in s.value
      modifies this`curr, data
      ensures Valid()
      ensures s.None? ==> curr == old(curr) && data[..] == old(data[..])
      ensures s.Some? ==>
        var text := s.value[..StrLen(s.value)];
        var k := Min(|text|, old(Available()));
        curr == old(curr) + k && ToString() == old(ToString()) + text[..k]
    {
      if s.None? {
        return;
      }
      Append(Some(s.value[..StrLen(s.value)]));
    }

    /** append(const string &): the string's characters, truncated to what fits. */
    method AppendString(s: string)
      requires Valid()
      modifies this`curr, data
      ensures Valid()
      ensures var k := Min(|s|, old(Available()));
        curr == old(curr) + k && ToString() == old(ToString()) + s[..k]
    {
      Append(Some(s));
    }
  }
}
