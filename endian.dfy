/**
 * Byte order conversion for 16-, 32- and 64-bit integers
 * (wind/conn/Endian.h). A value of width n bytes is stored in host memory
 * least significant byte first on a little-endian host and most significant
 * byte first on a big-endian one; network byte order is the latter
 * (Appendix B of RFC 791). The host's byte order is the parameter
 * `hostLittle`, so every statement below covers both kinds of host.
 */
module Endian {
  import Numerals
  import opened Seqs

  type byte = x: int | 0 <= x < 256

  /** 256^n: the number of values of an n-byte unsigned integer. */
  function Bound(n: nat): (b: nat)
    ensures b >= 1
  {
    Numerals.Pow(256, n)
  }

  /** The widths that have hostToNet/netToHost overloads: 16, 32 and 64 bits. */
  predicate IsWidth(n: nat)
  {
    n == 2 || n == 4 || n == 8
  }

  /** The low n bytes of x, least significant first. */
  function LE(x: nat, n: nat): (bs: seq<byte>)
    ensures |bs| == n
  {
    if n == 0 then [] else [x % 256] + LE(x / 256, n - 1)
  }

  /** Reads bytes least significant first. */
  function FromLE(bs: seq<byte>): nat
  {
    if bs == [] then 0 else bs[0] + 256 * FromLE(bs[1..])
  }

  /** The low n bytes of x, most significant first: network byte order. */
  function BE(x: nat, n: nat): (bs: seq<byte>)
    ensures |bs| == n
  {
    Reverse(LE(x, n))
  }

  /** Reads bytes most significant first. */
  function FromBE(bs: seq<byte>): nat
  {
    FromLE(Reverse(bs))
  }

  lemma {:induction false} FromLEBound(bs: seq<byte>)
    ensures FromLE(bs) < Bound(|bs|)
    decreases |bs|
  {
    if bs != [] {
      FromLEBound(bs[1..]);
      assert Bound(|bs|) == 256 * Bound(|bs| - 1);
    }
  }

  /** Encoding then decoding an n-byte value gives it back. */
  lemma {:induction false} FromLEOfLE(x: nat, n: nat)
    requires x < Bound(n)
    ensures FromLE(LE(x, n)) == x
    decreases n
  {
    if n > 0 {
      assert Bound(n) == 256 * Bound(n - 1);
      FromLEOfLE(x / 256, n - 1);
      assert LE(x, n)[1..] == LE(x / 256, n - 1);
    }
  }

  /** Decoding then re-encoding at the same width gives the bytes back. */
  lemma {:induction false} LEOfFromLE(bs: seq<byte>)
    ensures LE(FromLE(bs), |bs|) == bs
    decreases |bs|
  {
    if bs != [] {
      LEOfFromLE(bs[1..]);
      var x := FromLE(bs);
      assert x % 256 == bs[0] && x / 256 == FromLE(bs[1..]);
    }
  }

  lemma FromBEOfBE(x: nat, n: nat)
    requires x < Bound(n)
    ensures FromBE(BE(x, n)) == x
  {
    ReverseReverse(LE(x, n));
    FromLEOfLE(x, n);
  }

  lemma BEOfFromBE(bs: seq<byte>)
    ensures BE(FromBE(bs), |bs|) == bs
  {
    LEOfFromLE(Reverse(bs));
    ReverseReverse(bs);
  }

  lemma FromBEBound(bs: seq<byte>)
    ensures FromBE(bs) < Bound(|bs|)
  {
    FromLEBound(Reverse(bs));
  }

  /** The bytes of an n-byte value as it lies in host memory. */
  function HostBytes(x: nat, n: nat, hostLittle: bool): (bs: seq<byte>)
    ensures |bs| == n
  {
    if hostLittle then LE(x, n) else BE(x, n)
  }

  /** The value of n bytes copied into a host integer (memcpy). */
  function HostValue(bs: seq<byte>, hostLittle: bool): nat
  {
    if hostLittle then FromLE(bs) else FromBE(bs)
  }

  /** Reverses the n bytes of x (bswap). */
  function ByteSwap(x: nat, n: nat): nat
  {
    FromLE(BE(x, n))
  }

  /** htobe16/32/64: a byte swap on a little-endian host, the identity on a big-endian one. */
  function HostToNet(x: nat, n: nat, hostLittle: bool): (y: nat)
    requires IsWidth(n) && x < Bound(n)
    ensures y < Bound(n)
    ensures HostBytes(y, n, hostLittle) == BE(x, n)
  {
    FromLEBound(BE(x, n));
    if hostLittle then
      LEOfFromLE(BE(x, n));
      ByteSwap(x, n)
    else x
  }

  /** be16/32/64toh: the same byte reversal read the other way. */
  function NetToHost(y: nat, n: nat, hostLittle: bool): (x: nat)
    requires IsWidth(n) && y < Bound(n)
    ensures x < Bound(n)
    ensures BE(x, n) == HostBytes(y, n, hostLittle)
  {
    FromLEBound(BE(y, n));
    if hostLittle then
      LEOfFromLE(BE(y, n));
      ReverseReverse(LE(y, n));
      BEOfFromLE(BE(y, n));
      ByteSwap(y, n)
    else y
  }

  lemma BEOfFromLE(bs: seq<byte>)
    ensures BE(FromLE(bs), |bs|) == Reverse(bs)
  {
    LEOfFromLE(bs);
  }

  /** netToHost undoes hostToNet for unsigned values of every width. */
  lemma NetToHostOfHostToNet(x: nat, n: nat, hostLittle: bool)
    requires IsWidth(n) && x < Bound(n)
    ensures NetToHost(HostToNet(x, n, hostLittle), n, hostLittle) == x
  {
    var y := HostToNet(x, n, hostLittle);
    var z := NetToHost(y, n, hostLittle);
    assert BE(z, n) == HostBytes(y, n, hostLittle) == BE(x, n);
    FromBEOfBE(z, n);
    FromBEOfBE(x, n);
  }

  /** hostToNet undoes netToHost: the two are mutual inverses. */
  lemma HostToNetOfNetToHost(y: nat, n: nat, hostLittle: bool)
    requires IsWidth(n) && y < Bound(n)
    ensures HostToNet(NetToHost(y, n, hostLittle), n, hostLittle) == y
  {
    var x := NetToHost(y, n, hostLittle);
    var z := HostToNet(x, n, hostLittle);
    assert HostBytes(z, n, hostLittle) == BE(x, n) == HostBytes(y, n, hostLittle);
    if hostLittle {
      FromLEOfLE(z, n);
      FromLEOfLE(y, n);
    } else {
      FromBEOfBE(z, n);
      FromBEOfBE(y, n);
    }
  }

  /** Appending a more significant byte weighs it by 256^k. */
  lemma {:induction false} FromLEAppend(s: seq<byte>, b: byte)
    ensures FromLE(s + [b]) == FromLE(s) + b * Bound(|s|)
    decreases |s|
  {
    if s == [] {
      assert ([] + [b])[1..] == [];
    } else {
      FromLEAppend(s[1..], b);
      assert (s + [b])[1..] == s[1..] + [b];
      assert Bound(|s|) == 256 * Bound(|s| - 1);
      assert 256 * (b * Bound(|s| - 1)) == b * Bound(|s|);
    }
  }

  /**
   * Network byte order is most significant byte first: the first of the n
   * bytes carries weight 256^(n-1).
   */
  lemma FromBEFirst(bs: seq<byte>)
    requires bs != []
    ensures FromBE(bs) == bs[0] * Bound(|bs| - 1) + FromBE(bs[1..])
  {
    assert Reverse(bs) == Reverse(bs[1..]) + [bs[0]];
    FromLEAppend(Reverse(bs[1..]), bs[0]);
  }

  // ---- signed integers in two's complement ----

  /** The range of an n-byte signed integer. */
  predicate InSigned(v: int, n: nat)
  {
    -(Bound(n) / 2) <= v < Bound(n) / 2
  }

  /** Reinterprets a signed value as the unsigned value of the same bits. */
  function ToUnsigned(v: int, n: nat): (u: nat)
    requires InSigned(v, n)
    ensures u < Bound(n)
  {
    if v < 0 then v + Bound(n) else v
  }

  /** Reinterprets n bytes' unsigned value as a signed one. */
  function ToSigned(u: nat, n: nat): (v: int)
    requires 1 <= n && u < Bound(n)
    ensures InSigned(v, n)
  {
    HalfBound(n);
    if u >= Bound(n) / 2 then u - Bound(n) else u
  }

  /** Every width of at least one byte has an even bound. */
  lemma HalfBound(n: nat)
    requires 1 <= n
    ensures Bound(n) == 2 * (Bound(n) / 2)
  {
    var b := Bound(n - 1);
    assert Bound(n) == 2 * (128 * b);
  }

  lemma SignedRoundTrip(v: int, n: nat)
    requires 1 <= n && InSigned(v, n)
    ensures ToSigned(ToUnsigned(v, n), n) == v
  {
    assert Bound(n) == 256 * Bound(n - 1);
  }

  lemma UnsignedRoundTrip(u: nat, n: nat)
    requires 1 <= n && u < Bound(n)
    ensures ToUnsigned(ToSigned(u, n), n) == u
  {
    assert Bound(n) == 256 * Bound(n - 1);
  }

  /** htobe on int16/int32/int64: the bits are converted as unsigned. */
  function HostToNetSigned(v: int, n: nat, hostLittle: bool): (w: int)
    requires IsWidth(n) && InSigned(v, n)
    ensures InSigned(w, n)
    ensures HostBytes(ToUnsigned(w, n), n, hostLittle) == BE(ToUnsigned(v, n), n)
  {
    var y := HostToNet(ToUnsigned(v, n), n, hostLittle);
    UnsignedRoundTrip(y, n);
    ToSigned(y, n)
  }

  function NetToHostSigned(w: int, n: nat, hostLittle: bool): (v: int)
    requires IsWidth(n) && InSigned(w, n)
    ensures InSigned(v, n)
    ensures BE(ToUnsigned(v, n), n) == HostBytes(ToUnsigned(w, n), n, hostLittle)
  {
    var x := NetToHost(ToUnsigned(w, n), n, hostLittle);
    UnsignedRoundTrip(x, n);
    ToSigned(x, n)
  }

  /** netToHost undoes hostToNet for signed values, including -1, MIN and MAX. */
  lemma NetToHostOfHostToNetSigned(v: int, n: nat, hostLittle: bool)
    requires IsWidth(n) && InSigned(v, n)
    ensures NetToHostSigned(HostToNetSigned(v, n, hostLittle), n, hostLittle) == v
  {
    var u := ToUnsigned(v, n);
    var y := HostToNet(u, n, hostLittle);
    UnsignedRoundTrip(y, n);
    NetToHostOfHostToNet(u, n, hostLittle);
    SignedRoundTrip(v, n);
  }

  lemma HostToNetOfNetToHostSigned(w: int, n: nat, hostLittle: bool)
    requires IsWidth(n) && InSigned(w, n)
    ensures HostToNetSigned(NetToHostSigned(w, n, hostLittle), n, hostLittle) == w
  {
    var u := ToUnsigned(w, n);
    var x := NetToHost(u, n, hostLittle);
    UnsignedRoundTrip(x, n);
    HostToNetOfNetToHost(u, n, hostLittle);
    SignedRoundTrip(w, n);
  }
}
