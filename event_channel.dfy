/**
 * EventChannel (wind/base/EventChannel.h, wind/base/EventChannel.cpp): an
 * fd, the epoll events it listens to, the events last received, and four
 * callbacks. Requests to the owning loop (update or remove this channel)
 * and the callbacks run are logged; what a callback itself does is not
 * part of this model.
 */
module EventChannel {
  import opened Epoll

  class EventChannel {
    const fd: int
    var listening: bv32
    var received: bv32
    var addedToLoop: bool
    var tied: bool
    /** The owner recorded by tie, as an object identity. */
    var owner: nat
    var handlers: Handlers
    /** updateChannel/removeChannel requests sent to the loop, in order. */
    var loopCalls: seq<LoopCall>
    /** The callbacks run, in order. */
    var ran: seq<Callback>

    /** A new channel listens to nothing, has received nothing and is neither added nor tied. */
    constructor (fd: int)
      ensures this.fd == fd && listening == NONE && received == NONE
      ensures !addedToLoop && !tied && handlers == Handlers(false, false, false, false)
      ensures loopCalls == [] && ran == []
    {
      this.fd := fd;
      listening := NONE;
      received := NONE;
      addedToLoop := false;
      tied := false;
      owner := 0;
      handlers := Handlers(false, false, false, false);
      loopCalls := [];
      ran := [];
    }

    predicate HasNoEvent()
      reads this
    {
      listening == NONE
    }

    predicate IsWriting()
      reads this
    {
      listening & WRITE_EVENT != 0
    }

    predicate IsReading()
      reads this
    {
      listening & READ_EVENT != 0
    }

    /** isReading and isWriting test exactly the EPOLLIN/EPOLLPRI and EPOLLOUT bits. */
    lemma Queries()
      ensures IsReading() <==> listening & EPOLLIN != 0 || listening & EPOLLPRI != 0
      ensures IsWriting() <==> listening & EPOLLOUT != 0
      ensures HasNoEvent() ==> !IsReading() && !IsWriting()
    {
    }

    method SetReadCallback(present: bool)
      modifies this`handlers
      ensures handlers == old(handlers).(read := present)
    {
      handlers := handlers.(read := present);
    }

    method SetWriteCallback(present: bool)
      modifies this`handlers
      ensures handlers == old(handlers).(write := present)
    {
      handlers := handlers.(write := present);
    }

    method SetErrorCallback(present: bool)
      modifies this`handlers
      ensures handlers == old(handlers).(error := present)
    {
      handlers := handlers.(error := present);
    }

    method SetCloseCallback(present: bool)
      modifies this`handlers
      ensures handlers == old(handlers).(close := present)
    {
      handlers := handlers.(close := present);
    }

    /** tie records the owner and marks the channel tied. */
    method Tie(ownerObj: nat)
      modifies this`owner, this`tied
      ensures tied && owner == ownerObj
    {
      owner := ownerObj;
      tied := true;
    }

    /** The poller stores the events epoll reported. */
    method SetReceivedEvents(events: bv32)
      modifies this`received
      ensures received == events
    {
      received := events;
    }

    /** remove(): only a channel with no events; it leaves the loop. */
    method Remove()
      requires HasNoEvent()
      modifies this`addedToLoop, this`loopCalls
      ensures !addedToLoop && loopCalls == old(loopCalls) + [RemoveChannel(fd)]
    {
      addedToLoop := false;
      loopCalls := loopCalls + [RemoveChannel(fd)];
    }

    /** update(): a channel with no events is removed, any other is (re)registered. */
    method Update()
      modifies this`addedToLoop, this`loopCalls
      ensures HasNoEvent() ==> !addedToLoop && loopCalls == old(loopCalls) + [RemoveChannel(fd)]
      ensures !HasNoEvent() ==> addedToLoop && loopCalls == old(loopCalls) + [UpdateChannel(fd)]
    {
      if HasNoEvent() {
        Remove();
      } else {
        addedToLoop := true;
        loopCalls := loopCalls + [UpdateChannel(fd)];
      }
    }

    /** Sets the read bits, leaves every other bit, and registers the channel when asked. */
    method EnableReading(toUpdate: bool)
      modifies this`listening, this`addedToLoop, this`loopCalls
      ensures IsReading() && listening == SetBits(old(listening), READ_EVENT)
      ensures toUpdate ==> addedToLoop && loopCalls == old(loopCalls) + [UpdateChannel(fd)]
      ensures !toUpdate ==> addedToLoop == old(addedToLoop) && loopCalls == old(loopCalls)
    {
      listening := SetBits(listening, READ_EVENT);
      if toUpdate {
        Update();
      }
    }

    /** Clears the read bits, leaves every other bit; updating a channel left with nothing removes it. */
    method DisableReading(toUpdate: bool)
      modifies this`listening, this`addedToLoop, this`loopCalls
      ensures !IsReading() && listening == ClearBits(old(listening), READ_EVENT)
      ensures toUpdate && HasNoEvent() ==> !addedToLoop && loopCalls == old(loopCalls) + [RemoveChannel(fd)]
      ensures toUpdate && !HasNoEvent() ==> addedToLoop && loopCalls == old(loopCalls) + [UpdateChannel(fd)]
      ensures !toUpdate ==> addedToLoop == old(addedToLoop) && loopCalls == old(loopCalls)
    {
      listening := ClearBits(listening, READ_EVENT);
      if toUpdate {
        Update();
      }
    }

    method EnableWriting(toUpdate: bool)
      modifies this`listening, this`addedToLoop, this`loopCalls
      ensures IsWriting() && listening == SetBits(old(listening), WRITE_EVENT)
      ensures toUpdate ==> addedToLoop && loopCalls == old(loopCalls) + [UpdateChannel(fd)]
      ensures !toUpdate ==> addedToLoop == old(addedToLoop) && loopCalls == old(loopCalls)
    {
      listening := SetBits(listening, WRITE_EVENT);
      if toUpdate {
        Update();
      }
    }

    method DisableWriting(toUpdate: bool)
      modifies this`listening, this`addedToLoop, this`loopCalls
      ensures !IsWriting() && listening == ClearBits(old(listening), WRITE_EVENT)
      ensures toUpdate && HasNoEvent() ==> !addedToLoop && loopCalls == old(loopCalls) + [RemoveChannel(fd)]
      ensures toUpdate && !HasNoEvent() ==> addedToLoop && loopCalls == old(loopCalls) + [UpdateChannel(fd)]
      ensures !toUpdate ==> addedToLoop == old(addedToLoop) && loopCalls == old(loopCalls)
    {
      listening := ClearBits(listening, WRITE_EVENT);
      if toUpdate {
        Update();
      }
    }

    /** disableAll: no events at all, and removal from the loop when asked. */
    method DisableAll(toRemove: bool)
      modifies this`listening, this`addedToLoop, this`loopCalls
      ensures HasNoEvent()
      ensures toRemove ==> !addedToLoop && loopCalls == old(loopCalls) + [RemoveChannel(fd)]
      ensures !toRemove ==> addedToLoop == old(addedToLoop) && loopCalls == old(loopCalls)
    {
      listening := NONE;
      if toRemove {
        Remove();
      }
    }

    /**
     * handleEvent: runs the callbacks Fired selects for the received events;
     * after a close or error callback the channel drops every event and
     * leaves the loop.
     */
    method HandleEvent()
      modifies this`ran, this`listening, this`addedToLoop, this`loopCalls
      ensures ran == old(ran) + Fired(Decode(received), handlers)
      ensures Terminal(Decode(received), handlers) ==>
        HasNoEvent() && !addedToLoop && loopCalls == old(loopCalls) + [RemoveChannel(fd)]
      ensures !Terminal(Decode(received), handlers) ==>
        listening == old(listening) && addedToLoop == old(addedToLoop) && loopCalls == old(loopCalls)
    {
      HandleEventInner(Decode(received));
    }

    /** The dispatch on the decoded events a. */
    method HandleEventInner(a: Arrived)
      modifies this`ran, this`listening, this`addedToLoop, this`loopCalls
      ensures ran == old(ran) + Fired(a, handlers)
      ensures Terminal(a, handlers) ==>
        HasNoEvent() && !addedToLoop && loopCalls == old(loopCalls) + [RemoveChannel(fd)]
      ensures !Terminal(a, handlers) ==>
        listening == old(listening) && addedToLoop == old(addedToLoop) && loopCalls == old(loopCalls)
    {
      if a.hungUp {
        if handlers.close {
          ran := ran + [CloseCallback];
          DisableAll(true);
          return;
        }
      }
      if a.error {
        if handlers.error {
          ran := ran + [ErrorCallback];
          DisableAll(true);
          return;
        }
      }
      if a.readable {
        if handlers.read {
          ran := ran + [ReadCallback];
        }
      }
      if a.writable {
        if handlers.write {
          ran := ran + [WriteCallback];
        }
      }
    }
  }
}
