/**
 * Timer (wind/Timer.cpp): a callback with an expiry time and an interval;
 * a positive interval makes it repeat, and every timer takes the next value
 * of a process-wide sequence counter as its id. The clock reading used by
 * restart is a parameter.
 */
module Timer {
  /** The state a timer manager keeps per timer. */
  datatype TimerState = TimerState(id: nat, expireTime: int, interval: int, hasCallback: bool)
  {
    /** repeat_ is interval > 0. */
    predicate Repeats()
    {
      interval > 0
    }
  }

  /** execute(): the callback runs, then a repeating timer restarts at now + interval. */
  function ExecuteSpec(t: TimerState, now: int): (r: TimerState)
    ensures r.id == t.id && r.interval == t.interval && r.hasCallback == t.hasCallback
    ensures !t.Repeats() ==> r.expireTime == t.expireTime
    ensures t.Repeats() ==> r.expireTime == now + t.interval && r.expireTime > now
  {
    if t.Repeats() then t.(expireTime := now + t.interval) else t
  }

  /** A repeating timer executed at `now` is not due again at `now`. */
  lemma RepeatIsLater(t: TimerState, now: int)
    requires t.Repeats()
    ensures ExecuteSpec(t, now).expireTime > now && ExecuteSpec(ExecuteSpec(t, now), now).Repeats()
  {
  }

  /** genSequenceId's counter: starts at 0 and hands out each value once. */
  class IdGenerator {
    var next: nat

    constructor ()
      ensures next == 0
    {
      next := 0;
    }

    /** fetch_add(1): the old value is returned. */
    method GenSequenceId() returns (id: nat)
      modifies this
      ensures id == old(next) && next == old(next) + 1
    {
      id := next;
      next := next + 1;
    }
  }

  class Timer {
    const hasCallback: bool
    var expireTime: int
    const interval: int
    const repeat: bool
    const id: nat
    /** How many times the callback has run. */
    var runs: nat

    function State(): TimerState
      reads this
    {
      TimerState(id, expireTime, interval, hasCallback)
    }

    ghost predicate Valid()
      reads this
    {
      repeat == (interval > 0)
    }

    /** Timer(callback, expireTime, interval): the id is the next sequence number. */
    constructor (gen: IdGenerator, hasCallback: bool, expireTime: int, interval: int)
      modifies gen
      ensures Valid() && State() == TimerState(old(gen.next), expireTime, interval, hasCallback)
      ensures repeat == (interval > 0) && runs == 0
      ensures gen.next == old(gen.next) + 1
    {
      var seqId := gen.GenSequenceId();
      this.hasCallback := hasCallback;
      this.expireTime := expireTime;
      this.interval := interval;
      this.repeat := interval > 0;
      this.id := seqId;
      runs := 0;
    }

    /** execute(): a set callback runs once, then a repeating timer restarts. */
    method Execute(now: int)
      requires Valid()
      modifies this
      ensures Valid() && State() == ExecuteSpec(old(State()), now)
      ensures runs == old(runs) + (if hasCallback then 1 else 0)
    {
      if hasCallback {
        runs := runs + 1;
      }
      if repeat {
        Restart(now);
      }
    }

    /** restart(): only for a repeating timer; the expiry becomes now + interval. */
    method Restart(now: int)
      requires Valid() && repeat
      modifies this`expireTime
      ensures expireTime == now + interval
    {
      expireTime := now + interval;
    }
  }
}
