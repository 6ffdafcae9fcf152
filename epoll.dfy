/**
 * The epoll event bits (as in <sys/epoll.h> on Linux) that the event
 * channels listen to and receive, and the order in which a channel's
 * handleEvent runs its callbacks (wind/base/EventChannel.cpp and
 * wind/EventChannel.cpp share that order).
 */
module Epoll {
  const EPOLLIN: bv32 := 0x001
  const EPOLLPRI: bv32 := 0x002
  const EPOLLOUT: bv32 := 0x004
  const EPOLLERR: bv32 := 0x008
  const EPOLLHUP: bv32 := 0x010
  const EPOLLRDHUP: bv32 := 0x2000
  const EPOLLET: bv32 := 0x8000_0000

  /** EventType: NONE, READ_EVENT, WRITE_EVENT and EDGE_EVENT. */
  const NONE: bv32 := 0
  const READ_EVENT: bv32 := EPOLLIN | EPOLLPRI
  const WRITE_EVENT: bv32 := EPOLLOUT
  const EDGE_EVENT: bv32 := EPOLLET

  /** The epoll_ctl operations. */
  const EPOLL_CTL_ADD: int := 1
  const EPOLL_CTL_DEL: int := 2
  const EPOLL_CTL_MOD: int := 3

  /** Whether each of the four callbacks is set (a non-empty std::function). */
  datatype Handlers = Handlers(read: bool, write: bool, error: bool, close: bool)

  datatype Callback = CloseCallback | ErrorCallback | ReadCallback | WriteCallback

  /** A request a channel sends to its owning loop. */
  datatype LoopCall = UpdateChannel(fd: int) | RemoveChannel(fd: int)

  /** The received bits handleEvent tests, decoded. */
  datatype Arrived = Arrived(hungUp: bool, error: bool, readable: bool, writable: bool)

  /**
   * A hang-up counts only without EPOLLIN; input is any of EPOLLIN, EPOLLPRI
   * and EPOLLRDHUP; output is EPOLLOUT.
   */
  function Decode(ev: bv32): (a: Arrived)
    ensures ev & EPOLLIN != 0 ==> a.readable && !a.hungUp
  {
    Arrived(ev & EPOLLHUP != 0 && ev & EPOLLIN == 0, ev & EPOLLERR != 0,
      ev & (EPOLLIN | EPOLLPRI | EPOLLRDHUP) != 0, ev & EPOLLOUT != 0)
  }

  /** Each decoded flag is the test of its epoll bits. */
  lemma DecodeBits(ev: bv32)
    ensures Decode(ev).hungUp <==> ev & EPOLLHUP != 0 && ev & EPOLLIN == 0
    ensures Decode(ev).error <==> ev & EPOLLERR != 0
    ensures Decode(ev).readable <==> ev & EPOLLIN != 0 || ev & EPOLLPRI != 0 || ev & EPOLLRDHUP != 0
    ensures Decode(ev).writable <==> ev & EPOLLOUT != 0
  {
  }

  /** A close or error callback ran, so handleEvent stops there. */
  predicate Terminal(a: Arrived, h: Handlers)
  {
    (a.hungUp && h.close) || (a.error && h.error)
  }

  /**
   * The callbacks handleEvent runs, in order: close for a hang-up without
   * input, else error, else read then write. A bit whose callback is unset
   * falls through to the later checks.
   */
  function Fired(a: Arrived, h: Handlers): (r: seq<Callback>)
    ensures Terminal(a, h) ==> |r| == 1
    ensures |r| <= 2
  {
    if a.hungUp && h.close then [CloseCallback]
    else if a.error && h.error then [ErrorCallback]
    else
      (if a.readable && h.read then [ReadCallback] else [])
      + (if a.writable && h.write then [WriteCallback] else [])
  }

  /** Which callbacks run: close and error exclude everything else, and a bit runs its callback only when set. */
  lemma FiredMembers(a: Arrived, h: Handlers)
    ensures CloseCallback in Fired(a, h) <==> a.hungUp && h.close
    ensures ErrorCallback in Fired(a, h) <==> !(a.hungUp && h.close) && a.error && h.error
    ensures ReadCallback in Fired(a, h) <==> !Terminal(a, h) && a.readable && h.read
    ensures WriteCallback in Fired(a, h) <==> !Terminal(a, h) && a.writable && h.write
  {
  }

  /** No callback runs twice, and the read callback always precedes the write callback. */
  lemma FiredOrder(a: Arrived, h: Handlers)
    ensures forall i, j :: 0 <= i < j < |Fired(a, h)| ==> Fired(a, h)[i] != Fired(a, h)[j]
    ensures forall i, j :: 0 <= i < |Fired(a, h)| && 0 <= j < |Fired(a, h)| ==>
      (Fired(a, h)[i] == ReadCallback && Fired(a, h)[j] == WriteCallback ==> i < j)
  {
  }

  /** x with the bits of m set: every bit of m is on, every other bit is kept. */
  function SetBits(x: bv32, m: bv32): (r: bv32)
    ensures r & m == m && r & !m == x & !m
  {
    x | m
  }

  /** x with the bits of m cleared: every bit of m is off, every other bit is kept. */
  function ClearBits(x: bv32, m: bv32): (r: bv32)
    ensures r & m == 0 && r & !m == x & !m
  {
    x & !m
  }
}
