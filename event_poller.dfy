/**
 * EventPoller (wind/EventPoller.cpp): the fd -> channel registry behind
 * one epoll instance. The epoll_ctl calls are logged, and the results of
 * epoll_wait (a count and the fd and events of each entry) are inputs.
 * The event-array size eventSize_ is a static shared by every poller, so
 * it is an object the pollers share.
 */
module EventPoller {
  import opened Epoll
  import LegacyEventChannel

  type Channel = LegacyEventChannel.EventChannel

  /** epollOperationToString: a name per operation, and one name for anything else. */
  function EpollOperationToString(op: int): (s: string)
    ensures op == EPOLL_CTL_ADD <==> s == "EpollCtlAdd"
    ensures op == EPOLL_CTL_MOD <==> s == "EpollCtlMod"
    ensures op == EPOLL_CTL_DEL <==> s == "EpollCtlDel"
    ensures op !in {EPOLL_CTL_ADD, EPOLL_CTL_MOD, EPOLL_CTL_DEL} <==> s == "UnknownEpollCtl"
  {
    if op == EPOLL_CTL_ADD then "EpollCtlAdd"
    else if op == EPOLL_CTL_MOD then "EpollCtlMod"
    else if op == EPOLL_CTL_DEL then "EpollCtlDel"
    else "UnknownEpollCtl"
  }

  /** One epoll_ctl call: the operation, the fd, and the channel's interest bits at the time. */
  datatype CtlCall = CtlCall(op: int, fd: int, events: bv32)

  /** One entry epoll_wait filled in. */
  datatype Ready = Ready(fd: int, events: bv32)

  /** What pollOnce does with a returned fd, by whether it is registered. */
  datatype GuardOutcome = Proceed | Skip | Throws

  /**
   * The guard as written, `channels_.count(fd) == 0 && channels_.at(fd) ==
   * nullptr`: for an unknown fd the second operand runs and at() throws;
   * for a known fd the first operand is false and the entry is processed.
   */
  function GuardAsWritten(registered: bool): (g: GuardOutcome)
    ensures g != Skip
  {
    if !registered then Throws else Proceed
  }

  /** The guard as the warning it logs intends: an unknown fd is skipped. */
  function GuardIntended(registered: bool): (g: GuardOutcome)
    ensures g == Skip <==> !registered
    ensures g != Throws
  {
    if registered then Proceed else Skip
  }

  /** The written guard never skips: an unknown fd throws instead. */
  lemma GuardAsWrittenNeverSkips(registered: bool)
    ensures GuardAsWritten(registered) != Skip
    ensures GuardAsWritten(registered) == Throws <==> !registered
    ensures registered ==> GuardAsWritten(registered) == GuardIntended(registered)
  {
  }

  /** The counterexample: an fd epoll returns after it left the registry makes pollOnce throw. */
  lemma UnknownFdThrows()
    ensures GuardAsWritten(7 in map[3 := 0]) == Throws
    ensures GuardIntended(7 in map[3 := 0]) == Skip
  {
  }

  /** The channels pollOnce appends for the ready entries: the registered ones, in order. */
  ghost function Active(chs: map<int, Channel>, ready: seq<Ready>): (r: seq<Channel>)
    ensures |r| <= |ready|
    ensures forall c :: c in r ==> c in chs.Values
    decreases |ready|
  {
    if ready == [] then []
    else
      var last := ready[|ready| - 1];
      Active(chs, ready[..|ready| - 1]) + (if last.fd in chs then [chs[last.fd]] else [])
  }

  /** With every fd registered, one channel per ready entry, each the channel of that entry's fd. */
  lemma {:induction false} ActiveAllRegistered(chs: map<int, Channel>, ready: seq<Ready>)
    requires forall i :: 0 <= i < |ready| ==> ready[i].fd in chs
    ensures |Active(chs, ready)| == |ready|
    ensures forall i :: 0 <= i < |ready| ==> Active(chs, ready)[i] == chs[ready[i].fd]
  {
    if ready != [] {
      ActiveAllRegistered(chs, ready[..|ready| - 1]);
    }
  }

  /** The events a channel ends up with: those of the last entry for its fd, else what it had. */
  function LastEvents(ready: seq<Ready>, fd: int, previous: bv32): (ev: bv32)
    ensures (forall i :: 0 <= i < |ready| ==> ready[i].fd != fd) ==> ev == previous
    decreases |ready|
  {
    if ready == [] then previous
    else if ready[|ready| - 1].fd == fd then ready[|ready| - 1].events
    else LastEvents(ready[..|ready| - 1], fd, previous)
  }

  /** A channel whose fd was returned ends up with the events of its last entry. */
  lemma {:induction false} LastEventsOfLastEntry(ready: seq<Ready>, fd: int, previous: bv32, i: int)
    requires 0 <= i < |ready| && ready[i].fd == fd
    requires forall j :: i < j < |ready| ==> ready[j].fd != fd
    ensures LastEvents(ready, fd, previous) == ready[i].events
    decreases |ready|
  {
    if i < |ready| - 1 {
      var prefix := ready[..|ready| - 1];
      assert forall j :: i < j < |prefix| ==> prefix[j] == ready[j];
      LastEventsOfLastEntry(prefix, fd, previous, i);
    }
  }

  /** eventSize_: one size shared by every poller, starting at 32. */
  class SharedEventSize {
    var value: nat

    constructor ()
      ensures value == 32
    {
      value := 32;
    }
  }

  class EventPoller {
    const eventSize: SharedEventSize
    var channels: map<int, Channel>
    /** activeEvents_.size() */
    var activeEventsLen: nat
    var ctlCalls: seq<CtlCall>

    /** Each channel is filed under its own fd. */
    ghost predicate Valid()
      reads this, channels.Values
    {
      forall fd :: fd in channels ==> channels[fd].fd == fd
    }

    /** A new poller has no channels and an event array of the current shared size. */
    constructor (eventSize: SharedEventSize)
      ensures Valid() && channels == map[] && ctlCalls == []
      ensures this.eventSize == eventSize && activeEventsLen == eventSize.value
    {
      this.eventSize := eventSize;
      channels := map[];
      activeEventsLen := eventSize.value;
      ctlCalls := [];
    }

    /**
     * removeChannel: an unknown fd is left alone (only a warning); a known
     * one is deleted from epoll with its stored channel's bits and erased.
     */
    method RemoveChannel(fd: int)
      requires Valid()
      modifies this`channels, this`ctlCalls
      ensures Valid()
      ensures fd !in old(channels) ==> channels == old(channels) && ctlCalls == old(ctlCalls)
      ensures fd in old(channels) ==>
        && channels == old(channels) - {fd}
        && ctlCalls == old(ctlCalls) + [CtlCall(EPOLL_CTL_DEL, fd, old(channels[fd].listening))]
    {
      if fd !in channels {
        return;
      }
      ctlCalls := ctlCalls + [CtlCall(EPOLL_CTL_DEL, fd, channels[fd].listening)];
      channels := channels - {fd};
    }

    /**
     * updateChannel: null is ignored; a channel with no events goes through
     * the loop's removeChannel, which lands in this poller's removeChannel;
     * an unknown fd is added and stored; a known fd is modified with the
     * bits of the channel already stored under it.
     */
    method UpdateChannel(channel: LegacyEventChannel.EventChannel?)
      requires Valid()
      modifies this`channels, this`ctlCalls
      ensures Valid()
      ensures channel == null ==> channels == old(channels) && ctlCalls == old(ctlCalls)
      ensures channel != null && channel.HasNoEvent() ==>
        && channels == old(channels) - {channel.fd}
        && ctlCalls == old(ctlCalls)
          + (if channel.fd in old(channels) then [CtlCall(EPOLL_CTL_DEL, channel.fd, old(channels[channel.fd].listening))] else [])
      ensures channel != null && !channel.HasNoEvent() && channel.fd !in old(channels) ==>
        && channels == old(channels)[channel.fd := channel]
        && ctlCalls == old(ctlCalls) + [CtlCall(EPOLL_CTL_ADD, channel.fd, channel.listening)]
      ensures channel != null && !channel.HasNoEvent() && channel.fd in old(channels) ==>
        && channels == old(channels)
        && ctlCalls == old(ctlCalls) + [CtlCall(EPOLL_CTL_MOD, channel.fd, old(channels[channel.fd].listening))]
    {
      if channel == null {
        return;
      }
      var fd := channel.fd;
      if channel.HasNoEvent() {
        RemoveChannel(fd);
        return;
      }
      if fd !in channels {
        ctlCalls := ctlCalls + [CtlCall(EPOLL_CTL_ADD, fd, channel.listening)];
        channels := channels[fd := channel];
      } else {
        ctlCalls := ctlCalls + [CtlCall(EPOLL_CTL_MOD, fd, channels[fd].listening)];
      }
    }

    /**
     * pollOnce with epoll_wait's result as input: cnt, and the entries it
     * filled. epoll_wait is passed the shared size, not this poller's
     * array length, so once another poller has doubled the size the kernel
     * may fill more entries than the array holds: the model reports that
     * as `overflowed` and changes nothing. Otherwise, for cnt >= 0 each
     * entry with a registered fd records its events on that channel and
     * appends the channel; a full array doubles the shared size and
     * resizes this poller's array to it.
     */
    method PollOnce(activeChannels: seq<Channel>, cnt: int, ready: seq<Ready>) returns (result: seq<Channel>, overflowed: bool)
      requires Valid()
      requires cnt >= 0 ==> |ready| == cnt && cnt <= eventSize.value
      modifies (set fd | fd in channels :: channels[fd])`received
      modifies eventSize, this`activeEventsLen
      ensures channels == old(channels) && ctlCalls == old(ctlCalls) && Valid()
      ensures overflowed <==> cnt > old(activeEventsLen)
      ensures cnt < 0 || overflowed ==>
        && result == activeChannels && eventSize.value == old(eventSize.value) && activeEventsLen == old(activeEventsLen)
        && forall fd :: fd in channels ==> channels[fd].received == old(channels[fd].received)
      ensures cnt >= 0 && !overflowed ==> result == activeChannels + Active(channels, ready)
      ensures cnt >= 0 && !overflowed ==> forall fd :: fd in channels ==>
        channels[fd].received == LastEvents(ready, fd, old(channels[fd].received))
      ensures cnt >= 0 && !overflowed && cnt == old(eventSize.value) ==>
        eventSize.value == 2 * old(eventSize.value) && activeEventsLen == eventSize.value
      ensures cnt >= 0 && !overflowed && cnt != old(eventSize.value) ==>
        eventSize.value == old(eventSize.value) && activeEventsLen == old(activeEventsLen)
    {
      result := activeChannels;
      overflowed := cnt > activeEventsLen;
      if cnt < 0 || overflowed {
        return;
      }
      result := RecordReady(activeChannels, ready);
      if cnt == eventSize.value {
        eventSize.value := eventSize.value * 2;
        activeEventsLen := eventSize.value;
      }
    }

    /** The loop of pollOnce over the entries epoll_wait filled in. */
    method RecordReady(activeChannels: seq<Channel>, ready: seq<Ready>) returns (result: seq<Channel>)
      requires Valid()
      modifies (set fd | fd in channels :: channels[fd])`received
      ensures result == activeChannels + Active(channels, ready)
      ensures forall fd :: fd in channels ==> channels[fd].received == LastEvents(ready, fd, old(channels[fd].received))
    {
      result := activeChannels;
      var i := 0;
      while i < |ready|
        invariant 0 <= i <= |ready|
        invariant result == activeChannels + Active(channels, ready[..i])
        invariant forall fd :: fd in channels ==>
          channels[fd].received == LastEvents(ready[..i], fd, old(channels[fd].received))
      {
        var entry := ready[i];
        assert ready[..i + 1][..i] == ready[..i];
        if GuardIntended(entry.fd in channels) == Skip {
          i := i + 1;
          continue;
        }
        var channel := channels[entry.fd];
        channel.SetReceivedEvents(entry.events);
        result := result + [channel];
        i := i + 1;
      }
      assert ready[..i] == ready;
    }
  }

  /**
   * Two pollers on one shared size: when the first fills its 32 entries it
   * doubles the size to 64, while the second keeps an array of 32, so an
   * epoll_wait on the second may return more entries than its array holds.
   */
  method SharedSizeOutgrowsArray() returns (first: EventPoller, second: EventPoller)
    ensures first.eventSize == second.eventSize && first.eventSize.value == 64
    ensures first.activeEventsLen == 64 && second.activeEventsLen == 32
  {
    var size := new SharedEventSize();
    first := new EventPoller(size);
    second := new EventPoller(size);
    var ready := seq(32, i => Ready(i, 0));
    var result, overflowed := first.PollOnce([], 32, ready);
  }
}
