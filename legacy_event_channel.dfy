/**
 * The older EventChannel (wind/EventChannel.h, wind/EventChannel.cpp): the
 * same interest bits and update/remove protocol as the newer channel, but a
 * close or error callback is followed by a direct request to the loop to
 * remove the channel, leaving the interest bits as they were. It has no tie.
 */
module LegacyEventChannel {
  import opened Epoll

  class EventChannel {
    const fd: int
    var listening: bv32
    var received: bv32
    var addedToLoop: bool
    var handlers: Handlers
    /** updateChannel/removeChannel requests sent to the loop, in order. */
    var loopCalls: seq<LoopCall>
    /** The callbacks run, in order. */
    var ran: seq<Callback>

    /** A new channel listens to nothing, has received nothing and is not added to a loop. */
    constructor (fd: int)
      ensures this.fd == fd && listening == NONE && received == NONE
      ensures !addedToLoop && handlers == Handlers(false, false, false, false)
      ensures loopCalls == [] && ran == []
    {
      this.fd := fd;
      listening := NONE;
      received := NONE;
      addedToLoop := false;
      handlers := Handlers(false, false, false, false);
      loopCalls := [];
      ran := [];
    }

    predicate HasNoEvent()
      reads this
    {
      listening == NONE
    }

    predicate IsWriting()
      reads this
    {
      listening & WRITE_EVENT != 0
    }

    predicate IsReading()
      reads this
    {
      listening & READ_EVENT != 0
    }

    /** isReading and isWriting test exactly the EPOLLIN/EPOLLPRI and EPOLLOUT bits. */
    lemma Queries()
      ensures IsReading() <==> listening & EPOLLIN != 0 || listening & EPOLLPRI != 0
      ensures IsWriting() <==> listening & EPOLLOUT != 0
      ensures HasNoEvent() ==> !IsReading() && !IsWriting()
    {
    }

    method SetReadCallback(present: bool)
      modifies this`handlers
      ensures handlers == old(handlers).(read := present)
    {
      handlers := handlers.(read := present);
    }

    method SetWriteCallback(present: bool)
      modifies this`handlers
      ensures handlers == old(handlers).(write := present)
    {
      handlers := handlers.(write := present);
    }

    method SetErrorCallback(present: bool)
      modifies this`handlers
      ensures handlers == old(handlers).(error := present)
    {
      handlers := handlers.(error := present);
    }

    method SetCloseCallback(present: bool)
      modifies this`handlers
      ensures handlers == old(handlers).(close := present)
    {
      handlers := handlers.(close := present);
    }

    /** The poller stores the events epoll reported. */
    method SetReceivedEvents(events: bv32)
      modifies this`received
      ensures received == events
    {
      received := events;
    }

    /** remove(): only a channel with no events; it leaves the loop. */
    method Remove()
      requires HasNoEvent()
      modifies this`addedToLoop, this`loopCalls
      ensures !addedToLoop && loopCalls == old(loopCalls) + [RemoveChannel(fd)]
    {
      addedToLoop := false;
      loopCalls := loopCalls + [RemoveChannel(fd)];
    }

    /** update(): a channel with no events is removed, any other is (re)registered. */
    method Update()
      modifies this`addedToLoop, this`loopCalls
      ensures HasNoEvent() ==> !addedToLoop && loopCalls == old(loopCalls) + [RemoveChannel(fd)]
      ensures !HasNoEvent() ==> addedToLoop && loopCalls == old(loopCalls) + [UpdateChannel(fd)]
    {
      if HasNoEvent() {
        Remove();
      } else {
        addedToLoop := true;
        loopCalls := loopCalls + [UpdateChannel(fd)];
      }
    }

    /** Sets the read bits, leaves every other bit, and registers the channel when asked. */
    method EnableReading(toUpdate: bool)
      modifies this`listening, this`addedToLoop, this`loopCalls
      ensures IsReading() && listening == SetBits(old(listening), READ_EVENT)
      ensures toUpdate ==> addedToLoop && loopCalls == old(loopCalls) + [UpdateChannel(fd)]
      ensures !toUpdate ==> addedToLoop == old(addedToLoop) && loopCalls == old(loopCalls)
    {
      listening := SetBits(listening, READ_EVENT);
      if toUpdate {
        Update();
      }
    }

    /** Clears the read bits, leaves every other bit; updating a channel left with nothing removes it. */
    method DisableReading(toUpdate: bool)
      modifies this`listening, this`addedToLoop, this`loopCalls
      ensures !IsReading() && listening == ClearBits(old(listening), READ_EVENT)
      ensures toUpdate && HasNoEvent() ==> !addedToLoop && loopCalls == old(loopCalls) + [RemoveChannel(fd)]
      ensures toUpdate && !HasNoEvent() ==> addedToLoop && loopCalls == old(loopCalls) + [UpdateChannel(fd)]
      ensures !toUpdate ==> addedToLoop == old(addedToLoop) && loopCalls == old(loopCalls)
    {
      listening := ClearBits(listening, READ_EVENT);
      if toUpdate {
        Update();
      }
    }

    method EnableWriting(toUpdate: bool)
      modifies this`listening, this`addedToLoop, this`loopCalls
      ensures IsWriting() && listening == SetBits(old(listening), WRITE_EVENT)
      ensures toUpdate ==> addedToLoop && loopCalls == old(loopCalls) + [UpdateChannel(fd)]
      ensures !toUpdate ==> addedToLoop == old(addedToLoop) && loopCalls == old(loopCalls)
    {
      listening := SetBits(listening, WRITE_EVENT);
      if toUpdate {
        Update();
      }
    }

    method DisableWriting(toUpdate: bool)
      modifies this`listening, this`addedToLoop, this`loopCalls
      ensures !IsWriting() && listening == ClearBits(old(listening), WRITE_EVENT)
      ensures toUpdate && HasNoEvent() ==> !addedToLoop && loopCalls == old(loopCalls) + [RemoveChannel(fd)]
      ensures toUpdate && !HasNoEvent() ==> addedToLoop && loopCalls == old(loopCalls) + [UpdateChannel(fd)]
      ensures !toUpdate ==> addedToLoop == old(addedToLoop) && loopCalls == old(loopCalls)
    {
      listening := ClearBits(listening, WRITE_EVENT);
      if toUpdate {
        Update();
      }
    }

    /** disableAll: no events at all, and removal from the loop when asked. */
    method DisableAll(toRemove: bool)
      modifies this`listening, this`addedToLoop, this`loopCalls
      ensures HasNoEvent()
      ensures toRemove ==> !addedToLoop && loopCalls == old(loopCalls) + [RemoveChannel(fd)]
      ensures !toRemove ==> addedToLoop == old(addedToLoop) && loopCalls == old(loopCalls)
    {
      listening := NONE;
      if toRemove {
        Remove();
      }
    }

    /**
     * handleEvent: runs the callbacks Fired selects for the received events;
     * after a close or error callback the loop is asked to remove the
     * channel, whose interest bits stay as they were.
     */
    method HandleEvent()
      modifies this`ran, this`loopCalls
      ensures ran == old(ran) + Fired(Decode(received), handlers)
      ensures Terminal(Decode(received), handlers) ==> loopCalls == old(loopCalls) + [RemoveChannel(fd)]
      ensures !Terminal(Decode(received), handlers) ==> loopCalls == old(loopCalls)
    {
      HandleEventInner(Decode(received));
    }

    /** The dispatch on the decoded events a. */
    method HandleEventInner(a: Arrived)
      modifies this`ran, this`loopCalls
      ensures ran == old(ran) + Fired(a, handlers)
      ensures Terminal(a, handlers) ==> loopCalls == old(loopCalls) + [RemoveChannel(fd)]
      ensures !Terminal(a, handlers) ==> loopCalls == old(loopCalls)
    {
      if a.hungUp {
        if handlers.close {
          ran := ran + [CloseCallback];
          loopCalls := loopCalls + [RemoveChannel(fd)];
          return;
        }
      }
      if a.error {
        if handlers.error {
          ran := ran + [ErrorCallback];
          loopCalls := loopCalls + [RemoveChannel(fd)];
          return;
        }
      }
      if a.readable {
        if handlers.read {
          ran := ran + [ReadCallback];
        }
      }
      if a.writable {
        if handlers.write {
          ran := ran + [WriteCallback];
        }
      }
    }
  }
}
