/**
 * The growable byte buffer of the connection layer (wind/conn/Buffer.h and
 * wind/conn/Buffer.cpp). The bytes live in a vector with an 8-byte prepend
 * area; [readIdx, writeIdx) is the readable part and [writeIdx, size) the
 * writable part. Integers go on the wire in network byte order.
 */
module ConnBuffer {
  import opened Endian
  import opened Seqs

  const PREPEND_SIZE: nat := 8
  const INITIAL_SIZE: nat := 1016
  /** The stack buffer handleSocketRead reads into beyond the writable area. */
  const EXTRA_BUF_SIZE: nat := 65536

  /** The integer types with peek/read/write members: 1, 2, 4 or 8 bytes, signed or not. */
  predicate IsIntWidth(n: nat)
  {
    n == 1 || IsWidth(n)
  }

  predicate InRange(v: int, n: nat, signed: bool)
  {
    if signed then InSigned(v, n) else 0 <= v < Bound(n)
  }

  /** The wire form of an integer: its bits most significant byte first. */
  function Encode(v: int, n: nat, signed: bool): (bs: seq<byte>)
    requires InRange(v, n, signed)
    ensures |bs| == n
  {
    BE(if signed then ToUnsigned(v, n) else v, n)
  }

  /** The integer whose wire form is `bs`. */
  function Decode(bs: seq<byte>, signed: bool): (v: int)
    requires 1 <= |bs|
    ensures InRange(v, |bs|, signed)
  {
    FromBEBound(bs);
    if signed then ToSigned(FromBE(bs), |bs|) else FromBE(bs)
  }

  /** Reading back what was written gives the value: -1, MIN and MAX included. */
  lemma DecodeEncode(v: int, n: nat, signed: bool)
    requires 1 <= n && InRange(v, n, signed)
    ensures Decode(Encode(v, n, signed), signed) == v
  {
    if signed {
      FromBEOfBE(ToUnsigned(v, n), n);
      SignedRoundTrip(v, n);
    } else {
      FromBEOfBE(v, n);
    }
  }

  /** Every byte string is the wire form of exactly the value decoded from it. */
  lemma EncodeDecode(bs: seq<byte>, signed: bool)
    requires 1 <= |bs|
    ensures Encode(Decode(bs, signed), |bs|, signed) == bs
  {
    FromBEBound(bs);
    BEOfFromBE(bs);
    if signed {
      UnsignedRoundTrip(FromBE(bs), |bs|);
    }
  }

  /** A mixed sequence of writes reads back value by value in write order. */
  lemma DecodeFront(v: int, n: nat, signed: bool, rest: seq<byte>)
    requires 1 <= n && InRange(v, n, signed)
    ensures var bs := Encode(v, n, signed) + rest;
      Decode(bs[..n], signed) == v && bs[n..] == rest
  {
    var bs := Encode(v, n, signed) + rest;
    assert bs[..n] == Encode(v, n, signed);
    assert bs[n..] == rest;
    DecodeEncode(v, n, signed);
  }

  function Zeros(k: nat): (s: seq<byte>)
    ensures |s| == k && forall i :: 0 <= i < k ==> s[i] == 0
  {
    if k == 0 then [] else [0] + Zeros(k - 1)
  }

  class Buffer {
    var data: seq<byte>
    var readIdx: nat
    var writeIdx: nat

    /**
     * The index order, and room for the prepend area that resumeAll
     * restores whatever prepend size the buffer was built with.
     */
    ghost predicate Valid()
      reads this
    {
      readIdx <= writeIdx <= |data| && PREPEND_SIZE <= |data|
    }

    /** The readable bytes, in order. */
    function Readable(): seq<byte>
      reads this
      requires Valid()
    {
      data[readIdx..writeIdx]
    }

    constructor (initialSize: nat, prependSize: nat)
      requires PREPEND_SIZE <= prependSize + initialSize
      ensures Valid()
      ensures data == Zeros(prependSize + initialSize)
      ensures readIdx == prependSize && writeIdx == prependSize
      ensures Readable() == []
    {
      data := Zeros(prependSize + initialSize);
      readIdx := prependSize;
      writeIdx := prependSize;
    }

    /** A default buffer: nothing readable, 8 prepend bytes and 1016 writable. */
    constructor Default()
      ensures Valid()
      ensures Readable() == [] && PrependBytes() == PREPEND_SIZE && BytesWritable() == INITIAL_SIZE
    {
      data := Zeros(PREPEND_SIZE + INITIAL_SIZE);
      readIdx := PREPEND_SIZE;
      writeIdx := PREPEND_SIZE;
    }

    /** The defaulted copy constructor. */
    constructor Copy(other: Buffer)
      requires other.Valid()
      ensures Valid() && Readable() == other.Readable()
      ensures data == other.data && readIdx == other.readIdx && writeIdx == other.writeIdx
    {
      data := other.data;
      readIdx := other.readIdx;
      writeIdx := other.writeIdx;
    }

    /**
     * The move constructor takes the vector and copies the indices; the
     * moved-from vector is left empty with its indices untouched, so the
     * source is no longer a usable buffer.
     */
    constructor MoveFrom(other: Buffer)
      requires other.Valid()
      modifies other
      ensures Valid() && data == old(other.data)
      ensures readIdx == old(other.readIdx) && writeIdx == old(other.writeIdx)
      ensures other.data == [] && other.readIdx == old(other.readIdx) && other.writeIdx == old(other.writeIdx)
      ensures !other.Valid()
    {
      data := other.data;
      readIdx := other.readIdx;
      writeIdx := other.writeIdx;
      other.data := [];
    }

    function PrependBytes(): (k: nat)
      reads this
      requires Valid()
      ensures k <= |data| - |Readable()|
    {
      readIdx
    }

    function BytesReadable(): (k: nat)
      reads this
      requires Valid()
      ensures k == |Readable()|
    {
      writeIdx - readIdx
    }

    function BytesWritable(): (k: nat)
      reads this
      requires Valid()
      ensures PrependBytes() + |Readable()| + k == |data|
    {
      |data| - writeIdx
    }

    method Swap(other: Buffer)
      requires Valid() && other.Valid()
      modifies this, other
      ensures data == old(other.data) && readIdx == old(other.readIdx) && writeIdx == old(other.writeIdx)
      ensures other.data == old(data) && other.readIdx == old(readIdx) && other.writeIdx == old(writeIdx)
      ensures Valid() && other.Valid()
    {
      var d, r, w := data, readIdx, writeIdx;
      data, readIdx, writeIdx := other.data, other.readIdx, other.writeIdx;
      other.data, other.readIdx, other.writeIdx := d, r, w;
    }

    /** Move assignment is a swap: the source receives this buffer's old contents. */
    method MoveAssign(other: Buffer)
      requires Valid() && other.Valid()
      modifies this, other
      ensures data == old(other.data) && readIdx == old(other.readIdx) && writeIdx == old(other.writeIdx)
      ensures other.data == old(data) && other.readIdx == old(readIdx) && other.writeIdx == old(writeIdx)
      ensures Valid() && other.Valid()
    {
      Swap(other);
    }

    method ResumeAll()
      requires Valid()
      modifies this
      ensures Valid() && data == old(data)
      ensures readIdx == PREPEND_SIZE && writeIdx == PREPEND_SIZE
      ensures Readable() == []
    {
      readIdx := PREPEND_SIZE;
      writeIdx := readIdx;
    }

    /**
     * Consumes the first len readable bytes. The ASSERT that len is at most
     * the readable count is compiled out of release builds, where a larger
     * len consumes everything, as len == readable does.
     */
    method Resume(len: nat)
      requires Valid()
      modifies this
      ensures Valid() && data == old(data)
      ensures len <= old(BytesReadable()) ==> Readable() == old(Readable())[len..]
      ensures len < old(BytesReadable()) ==> readIdx == old(readIdx) + len && writeIdx == old(writeIdx)
      ensures len >= old(BytesReadable()) ==> readIdx == PREPEND_SIZE && writeIdx == PREPEND_SIZE && Readable() == []
    {
      if len < BytesReadable() {
        readIdx := readIdx + len;
      } else {
        ResumeAll();
      }
    }

    /**
     * Makes room for len more bytes, called only when fewer than len are
     * writable: reallocates when the writable and prepend areas together
     * cannot hold len + 8 bytes, and otherwise moves the readable bytes down
     * to the end of the prepend area.
     */
    method MakeMoreSpace(len: nat)
      requires Valid() && BytesWritable() < len
      modifies this
      ensures Valid() && Readable() == old(Readable())
      ensures BytesWritable() >= len
      ensures old(len + PREPEND_SIZE > BytesWritable() + PrependBytes()) ==>
        && |data| == old(writeIdx) + len
        && data[..old(|data|)] == old(data)
        && readIdx == old(readIdx) && writeIdx == old(writeIdx)
      ensures old(len + PREPEND_SIZE <= BytesWritable() + PrependBytes()) ==>
        && old(readIdx) > PREPEND_SIZE
        && |data| == old(|data|)
        && data[..PREPEND_SIZE] == old(data[..PREPEND_SIZE])
        && readIdx == PREPEND_SIZE && writeIdx == PREPEND_SIZE + old(BytesReadable())
        && data[writeIdx..] == old(data[PREPEND_SIZE + BytesReadable()..])
    {
      if len + PREPEND_SIZE > BytesWritable() + PrependBytes() {
        data := data + Zeros(writeIdx + len - |data|);
      } else {
        var readable := Readable();
        data := data[..PREPEND_SIZE] + readable + data[PREPEND_SIZE + |readable|..];
        readIdx := PREPEND_SIZE;
        writeIdx := |readable| + readIdx;
      }
    }

    /** Appends bytes after the readable ones, making room first when needed. */
    method Append(bytes: seq<byte>)
      requires Valid()
      modifies this
      ensures Valid() && Readable() == old(Readable()) + bytes
      ensures old(BytesWritable()) >= |bytes| ==>
        && readIdx == old(readIdx) && |data| == old(|data|)
        && data[..old(writeIdx)] == old(data[..writeIdx])
        && data[writeIdx..] == old(data[writeIdx + |bytes|..])
      ensures old(BytesWritable()) < |bytes| && old(|bytes| + PREPEND_SIZE > BytesWritable() + PrependBytes()) ==>
        readIdx == old(readIdx) && |data| == old(writeIdx) + |bytes| && writeIdx == |data|
      ensures old(BytesWritable()) < |bytes| && old(|bytes| + PREPEND_SIZE <= BytesWritable() + PrependBytes()) ==>
        readIdx == PREPEND_SIZE && |data| == old(|data|)
    {
      if BytesWritable() < |bytes| {
        MakeMoreSpace(|bytes|);
      }
      data := data[..writeIdx] + bytes + data[writeIdx + |bytes|..];
      writeIdx := writeIdx + |bytes|;
    }

    /**
     * peekInt8 … peekUInt64: the first n readable bytes copied into a host
     * integer, converted from network order for widths above one byte.
     */
    function PeekInt(n: nat, signed: bool, hostLittle: bool): (v: int)
      reads this
      requires Valid() && IsIntWidth(n) && n <= BytesReadable()
      ensures InRange(v, n, signed)
      ensures v == Decode(Readable()[..n], signed)
    {
      assert data[readIdx..readIdx + n] == Readable()[..n];
      MemcpyToHost(data[readIdx..readIdx + n], signed, hostLittle)
    }

    /** readInt8 … readUInt64: peek, then consume exactly n bytes. */
    method ReadInt(n: nat, signed: bool, hostLittle: bool) returns (v: int)
      requires Valid() && IsIntWidth(n) && n <= BytesReadable()
      modifies this
      ensures Valid() && InRange(v, n, signed)
      ensures v == Decode(old(Readable())[..n], signed)
      ensures Readable() == old(Readable())[n..]
      ensures |Readable()| == old(|Readable()|) - n
    {
      v := PeekInt(n, signed, hostLittle);
      Resume(n);
    }

    /**
     * writeInt8 … writeUInt64: a one-byte value is appended as it is, a
     * wider one converted to network order first (writeInteger).
     */
    method WriteInt(v: int, n: nat, signed: bool, hostLittle: bool)
      requires Valid() && IsIntWidth(n) && InRange(v, n, signed)
      modifies this
      ensures Valid() && Readable() == old(Readable()) + Encode(v, n, signed)
    {
      var u := if signed then ToUnsigned(v, n) else v;
      if n == 1 {
        Append(HostBytes(u, 1, hostLittle));
      } else if signed {
        var netVal := HostToNetSigned(v, n, hostLittle);
        Append(HostBytes(ToUnsigned(netVal, n), n, hostLittle));
      } else {
        var netVal := HostToNet(v, n, hostLittle);
        Append(HostBytes(netVal, n, hostLittle));
      }
    }

    /**
     * read(len): the first len readable bytes, consumed. Past the
     * compiled-out ASSERT, a len above the readable count returns and
     * consumes every readable byte.
     */
    method ReadBytes(len: nat) returns (res: seq<byte>)
      requires Valid()
      modifies this
      ensures Valid()
      ensures len <= old(BytesReadable()) ==> res == old(Readable())[..len] && Readable() == old(Readable())[len..]
      ensures len > old(BytesReadable()) ==> res == old(Readable()) && Readable() == []
    {
      var readLen := if len <= BytesReadable() then len else BytesReadable();
      res := data[readIdx..readIdx + readLen];
      Resume(len);
    }

    /** readAll: every readable byte, leaving none. */
    method ReadAll() returns (res: seq<byte>)
      requires Valid()
      modifies this
      ensures Valid() && res == old(Readable()) && BytesReadable() == 0
    {
      res := ReadBytes(BytesReadable());
    }

    /**
     * handleSocketRead with the readv outcome as input: n is its result and
     * incoming the bytes it delivered, first into the writable area and then
     * into a 64 KiB stack buffer (offered only when fewer than 64 KiB are
     * writable). The returned value is n.
     */
    method HandleSocketRead(n: int, incoming: seq<byte>, errno: int, savedErrno: int) returns (ret: int, savedErrnoOut: int)
      requires Valid()
      requires n >= 0 ==> |incoming| == n
      requires n <= BytesWritable() + (if BytesWritable() < EXTRA_BUF_SIZE then EXTRA_BUF_SIZE else 0)
      modifies this
      ensures Valid() && ret == n
      ensures n < 0 ==> savedErrnoOut == errno && data == old(data) && readIdx == old(readIdx) && writeIdx == old(writeIdx)
      ensures n >= 0 ==> savedErrnoOut == savedErrno && Readable() == old(Readable()) + incoming
    {
      var writable := BytesWritable();
      savedErrnoOut := savedErrno;
      if n < 0 {
        savedErrnoOut := errno;
      } else if n <= writable {
        data := data[..writeIdx] + incoming + data[writeIdx + n..];
        writeIdx := writeIdx + n;
      } else {
        data := data[..writeIdx] + incoming[..writable];
        writeIdx := |data|;
        Append(incoming[writable..]);
        assert old(Readable()) + incoming == old(Readable()) + incoming[..writable] + incoming[writable..];
      }
      ret := n;
    }
  }

  /**
   * A host integer filled by memcpy from `bytes`, then converted from
   * network order unless it is a single byte.
   */
  function MemcpyToHost(bytes: seq<byte>, signed: bool, hostLittle: bool): (v: int)
    requires IsIntWidth(|bytes|)
    ensures v == Decode(bytes, signed)
  {
    var n := |bytes|;
    var raw := HostValue(bytes, hostLittle);
    if n == 1 then
      HostValueFacts(bytes, hostLittle);
      if signed then ToSigned(raw, 1) else raw
    else if signed then
      HostValueFacts(bytes, hostLittle);
      UnsignedRoundTrip(raw, n);
      var v := NetToHostSigned(ToSigned(raw, n), n, hostLittle);
      SameBits(v, raw, FromBE(bytes), n, hostLittle);
      v
    else
      HostValueFacts(bytes, hostLittle);
      var v := NetToHost(raw, n, hostLittle);
      NetToHostIsFromBE(raw, FromBE(bytes), n, hostLittle);
      v
  }

  /** The host integer a memcpy of `bytes` produces, against their network-order value. */
  lemma HostValueFacts(bytes: seq<byte>, hostLittle: bool)
    ensures HostValue(bytes, hostLittle) < Bound(|bytes|) && FromBE(bytes) < Bound(|bytes|)
    ensures BE(HostValue(bytes, hostLittle), |bytes|) == HostBytes(FromBE(bytes), |bytes|, hostLittle)
    ensures |bytes| == 1 ==> HostValue(bytes, hostLittle) == FromBE(bytes)
  {
    FromLEBound(bytes);
    FromBEBound(bytes);
    if hostLittle {
      LEOfFromLE(bytes);
      LEOfFromLE(Reverse(bytes));
    }
    if |bytes| == 1 {
      assert Reverse(bytes) == bytes;
    }
  }

  lemma NetToHostIsFromBE(raw: nat, x: nat, n: nat, hostLittle: bool)
    requires IsWidth(n) && raw < Bound(n) && x < Bound(n)
    requires BE(raw, n) == HostBytes(x, n, hostLittle)
    ensures NetToHost(raw, n, hostLittle) == x
  {
    var y := NetToHost(raw, n, hostLittle);
    assert BE(y, n) == HostBytes(raw, n, hostLittle);
    if hostLittle {
      assert BE(raw, n) == LE(x, n);
      ReverseReverse(LE(raw, n));
      assert LE(raw, n) == Reverse(LE(x, n)) == BE(x, n);
      assert BE(y, n) == LE(raw, n);
      FromBEOfBE(y, n);
      FromBEOfBE(x, n);
    } else {
      FromBEOfBE(y, n);
      FromBEOfBE(x, n);
    }
  }

  lemma SameBits(v: int, raw: nat, x: nat, n: nat, hostLittle: bool)
    requires IsWidth(n) && raw < Bound(n) && x < Bound(n)
    requires BE(raw, n) == HostBytes(x, n, hostLittle)
    requires InSigned(ToSigned(raw, n), n)
    requires v == NetToHostSigned(ToSigned(raw, n), n, hostLittle)
    ensures v == ToSigned(x, n)
  {
    UnsignedRoundTrip(raw, n);
    NetToHostIsFromBE(raw, x, n, hostLittle);
    var u := NetToHost(raw, n, hostLittle);
    UnsignedRoundTrip(u, n);
  }
}
