/**
 * The older fixed-capacity buffer (wind/Buffer.h): the same truncating
 * append, without the null/empty guard, without grow(), and with an
 * uninitialised array.
 */
module LegacyBuffer {
  const DEFAULT_BUFFER_SIZE: nat := 4096

  function Min(a: nat, b: nat): nat
  {
    if a > b then b else a
  }

  class FixedSizeBuffer {
    const data: array<char>
    var curr: nat

    ghost predicate Valid()
      reads this
    {
      curr <= data.Length
    }

    function Capacity(): nat
      reads this
    {
      data.Length
    }

    function Length(): (k: nat)
      reads this
      requires Valid()
      ensures k <= Capacity()
    {
      curr
    }

    function Available(): (k: nat)
      reads this
      requires Valid()
      ensures Length() + k == Capacity()
    {
      data.Length - curr
    }

    function ToString(): (s: string)
      reads this, data
      requires Valid()
      ensures |s| == Length()
    {
      data[..curr]
    }

    /** A buffer of N characters with unspecified contents and nothing written. */
    constructor (n: nat, garbage: char)
      ensures Valid() && fresh(data) && data.Length == n && curr == 0
      ensures Length() == 0 && Available() == n && Capacity() == n
    {
      data := new char[n](_ => garbage);
      curr := 0;
    }

    method Reset()
      requires Valid()
      modifies this`curr
      ensures Valid() && curr == 0 && Available() == Capacity()
    {
      curr := 0;
    }

    /** Zeroes every character, then resets. */
    method Clear()
      requires Valid()
      modifies this`curr, data
      ensures Valid() && curr == 0
      ensures forall i :: 0 <= i < data.Length ==> data[i] == '\0'
    {
      var i := 0;
      while i < data.Length
        invariant 0 <= i <= data.Length && curr == old(curr)
        invariant forall j :: 0 <= j < i ==> data[j] == '\0'
      {
        data[i] := '\0';
        i := i + 1;
      }
      Reset();
    }

    /**
     * append(s, len) and append(const string &): copies the first
     * min(len, available) characters at `curr`; the rest is dropped.
     */
    method Append(s: seq<char>)
      requires Valid()
      modifies this`curr, data
      ensures Valid()
      ensures var k := Min(|s|, old(Available()));
        && curr == old(curr) + k
        && ToString() == old(ToString()) + s[..k]
        && data[curr..] == old(data[..])[curr..]
    {
      var bytesToWrite := if Available() > |s| then |s| else Available();
      var i := 0;
      while i < bytesToWrite
        invariant 0 <= i <= bytesToWrite && curr == old(curr)
        invariant forall j :: 0 <= j < data.Length ==>
          data[j] == if curr <= j < curr + i then s[j - curr] else old(data[j])
      {
        data[curr + i] := s[i];
        i := i + 1;
      }
      curr := curr + bytesToWrite;
      assert ToString() == old(ToString()) + s[..bytesToWrite];
      assert data[curr..] == old(data[..])[curr..] by {
        forall j | curr <= j < data.Length
          ensures data[j] == old(data[j])
        {
        }
      }
    }
  }
}
