/**
 * The older TimerManager (wind/TimerManager.cpp): a single ordered set
 * timers_ of (expiry, shared_ptr<Timer>) pairs. The pairs compare by time,
 * then by the Timer's address; addresses are naturals, 0 being null, and
 * the Timer objects live in `heap`. Times are nanoseconds. Re-arms of the
 * kernel timer, timerfd reads and callback runs are logged.
 */
module LegacyTimerManager {
  import opened Timer

  const NANO_SECS_PER_SECOND: int := 1_000_000_000
  const MIN_DIFF_NANOS: int := 1_000

  datatype TimerSpec = TimerSpec(sec: int, nsec: int)

  /**
   * generateTimerSpec: the delay until dstTime, raised to 1000 ns when
   * smaller, split into seconds and nanoseconds.
   */
  function GenerateTimerSpec(dstTime: int, now: int): (s: TimerSpec)
    ensures 0 <= s.nsec < NANO_SECS_PER_SECOND && s.sec >= 0
    ensures dstTime - now >= MIN_DIFF_NANOS ==> s.sec * NANO_SECS_PER_SECOND + s.nsec == dstTime - now
    ensures dstTime - now < MIN_DIFF_NANOS ==> s == TimerSpec(0, MIN_DIFF_NANOS)
  {
    var diffNanos := if dstTime - now < MIN_DIFF_NANOS then MIN_DIFF_NANOS else dstTime - now;
    TimerSpec(diffNanos / NANO_SECS_PER_SECOND, diffNanos % NANO_SECS_PER_SECOND)
  }

  /** The programmed delay is never zero, so the kernel timer always fires. */
  lemma SpecPositive(dstTime: int, now: int)
    ensures var s := GenerateTimerSpec(dstTime, now);
      s.sec > 0 || s.nsec >= MIN_DIFF_NANOS
  {
    var d := dstTime - now;
    if d >= NANO_SECS_PER_SECOND {
      assert d / NANO_SECS_PER_SECOND >= 1;
    }
  }

  /** One element of timers_: an expiry and the Timer's address. */
  datatype Entry = Entry(time: int, timer: nat)

  /** std::pair's operator<, the shared_ptrs comparing by address. */
  predicate Before(a: Entry, b: Entry)
  {
    a.time < b.time || (a.time == b.time && a.timer < b.timer)
  }

  ghost predicate Sorted(s: seq<Entry>)
  {
    forall i, j :: 0 <= i < j < |s| ==> Before(s[i], s[j])
  }

  /** The addresses an entry sequence refers to. */
  function Addrs(s: seq<Entry>): (r: set<nat>)
    ensures forall i :: 0 <= i < |s| ==> s[i].timer in r
    ensures |r| <= |s|
  {
    if s == [] then {} else {s[0].timer} + Addrs(s[1..])
  }

  /** Every address referred to comes from some entry. */
  lemma {:induction false} AddrsIndex(s: seq<Entry>, x: nat)
    requires x in Addrs(s)
    ensures exists i :: 0 <= i < |s| && s[i].timer == x
  {
    if s[0].timer != x {
      AddrsIndex(s[1..], x);
      var i :| 0 <= i < |s| - 1 && s[1..][i].timer == x;
      assert s[i + 1].timer == x;
    }
  }

  /** std::set::insert of a pair not yet present. */
  function Insert(s: seq<Entry>, e: Entry): (r: seq<Entry>)
    requires Sorted(s)
    ensures Sorted(r)
    ensures forall x :: x in r <==> x in s || x == e
    ensures |r| > 0 && (s != [] ==> r[0] == (if Before(e, s[0]) then e else s[0]))
    decreases |s|
  {
    if s == [] then [e]
    else if e == s[0] then s
    else if Before(e, s[0]) then [e] + s
    else
      var rest := Insert(s[1..], e);
      assert forall x :: x in rest ==> Before(s[0], x) by {
        forall x | x in rest ensures Before(s[0], x) {
          if x != e {
            var j :| 1 <= j < |s| && s[j] == x;
          }
        }
      }
      [s[0]] + rest
  }

  /** Inserting adds exactly the new entry's address. */
  lemma AddrsInsert(s: seq<Entry>, e: Entry)
    requires Sorted(s)
    ensures Addrs(Insert(s, e)) == Addrs(s) + {e.timer}
  {
    var r := Insert(s, e);
    forall x | x in Addrs(r)
      ensures x in Addrs(s) + {e.timer}
    {
      AddrsIndex(r, x);
      var i :| 0 <= i < |r| && r[i].timer == x;
      assert r[i] in r;
      if r[i] != e {
        var j :| 0 <= j < |s| && s[j] == r[i];
      }
    }
    forall x | x in Addrs(s) + {e.timer}
      ensures x in Addrs(r)
    {
      if x == e.timer {
        assert e in r;
        var i :| 0 <= i < |r| && r[i] == e;
      } else {
        AddrsIndex(s, x);
        var j :| 0 <= j < |s| && s[j].timer == x;
        assert s[j] in s;
        var i :| 0 <= i < |r| && r[i] == s[j];
      }
    }
  }

  /** std::set::lower_bound(pivot). */
  function LowerBound(s: seq<Entry>, pivot: Entry): (k: nat)
    ensures k <= |s|
    ensures forall i :: 0 <= i < k ==> Before(s[i], pivot)
    ensures k < |s| ==> !Before(s[k], pivot)
  {
    if s == [] || !Before(s[0], pivot) then 0 else 1 + LowerBound(s[1..], pivot)
  }

  /** In a sorted sequence nothing from the lower bound on is before the pivot. */
  lemma LowerBoundSplits(s: seq<Entry>, pivot: Entry)
    requires Sorted(s)
    ensures forall i :: LowerBound(s, pivot) <= i < |s| ==> !Before(s[i], pivot)
  {
    var k := LowerBound(s, pivot);
    forall i | k <= i < |s|
      ensures !Before(s[i], pivot)
    {
      if i > k {
        assert Before(s[k], s[i]);
      }
    }
  }

  /**
   * timers_ is sorted and each of its pairs points to a live Timer whose
   * expiry is the pair's time; the pending pairs, taken out for dispatch,
   * point to other live Timers, each once.
   */
  ghost predicate Filed(entries: seq<Entry>, heap: map<nat, TimerState>, pending: seq<Entry>)
  {
    && Sorted(entries)
    && (forall i :: 0 <= i < |entries| ==>
          entries[i].timer != 0 && entries[i].timer in heap && heap[entries[i].timer].expireTime == entries[i].time)
    && (forall j :: 0 <= j < |pending| ==>
          pending[j].timer != 0 && pending[j].timer in heap && heap[pending[j].timer].expireTime == pending[j].time)
    && (forall j :: 0 <= j < |pending| ==> pending[j].timer !in Addrs(entries))
    && (forall j, k :: 0 <= j < k < |pending| ==> pending[j].timer != pending[k].timer)
  }

  /** Both containers, and the callbacks run, after the pending timers have executed. */
  datatype Dispatched = Dispatched(entries: seq<Entry>, heap: map<nat, TimerState>, runs: seq<nat>)

  /**
   * handleRead's loop: each pending timer executes in order, running its
   * callback if set, and is inserted again at its new expiry if it repeats.
   */
  function Dispatch(entries: seq<Entry>, heap: map<nat, TimerState>, pending: seq<Entry>, now: int): (d: Dispatched)
    requires Filed(entries, heap, pending)
    ensures Filed(d.entries, d.heap, []) && d.heap.Keys == heap.Keys
    decreases |pending|
  {
    if pending == [] then Dispatched(entries, heap, [])
    else
      var p := pending[0].timer;
      var after := ExecuteSpec(heap[p], now);
      var e := if after.Repeats() then Insert(entries, Entry(after.expireTime, p)) else entries;
      var m := heap[p := after];
      FiledStep(entries, heap, pending, now);
      var rest := Dispatch(e, m, pending[1..], now);
      Dispatched(rest.entries, rest.heap, (if heap[p].hasCallback then [p] else []) + rest.runs)
  }

  /** Executing the first pending timer keeps the rest filed. */
  lemma FiledStep(entries: seq<Entry>, heap: map<nat, TimerState>, pending: seq<Entry>, now: int)
    requires |pending| > 0 && Filed(entries, heap, pending)
    ensures var p := pending[0].timer;
      var after := ExecuteSpec(heap[p], now);
      var e := if after.Repeats() then Insert(entries, Entry(after.expireTime, p)) else entries;
      Filed(e, heap[p := after], pending[1..])
  {
    var p := pending[0].timer;
    var after := ExecuteSpec(heap[p], now);
    var e := if after.Repeats() then Insert(entries, Entry(after.expireTime, p)) else entries;
    if after.Repeats() {
      AddrsInsert(entries, Entry(after.expireTime, p));
    }
    FiledEntriesStep(entries, heap, pending, after, e);
    FiledPendingStep(entries, heap, pending, after, e);
  }

  /** After one execution every filed entry still matches the heap. */
  lemma FiledEntriesStep(entries: seq<Entry>, heap: map<nat, TimerState>, pending: seq<Entry>, after: TimerState, e: seq<Entry>)
    requires |pending| > 0 && Filed(entries, heap, pending)
    requires var p := pending[0].timer;
      e == if after.Repeats() then Insert(entries, Entry(after.expireTime, p)) else entries
    ensures var m := heap[pending[0].timer := after];
      forall i :: 0 <= i < |e| ==> e[i].timer != 0 && e[i].timer in m && m[e[i].timer].expireTime == e[i].time
  {
    var p := pending[0].timer;
    var m := heap[p := after];
    forall i | 0 <= i < |e|
      ensures e[i].timer != 0 && e[i].timer in m && m[e[i].timer].expireTime == e[i].time
    {
      assert e[i] in e;
      if e[i] != Entry(after.expireTime, p) {
        var k :| 0 <= k < |entries| && entries[k] == e[i];
        assert e[i].timer != p;
      }
    }
  }

  /** After one execution the other pending timers are still unfiled and match the heap. */
  lemma FiledPendingStep(entries: seq<Entry>, heap: map<nat, TimerState>, pending: seq<Entry>, after: TimerState, e: seq<Entry>)
    requires |pending| > 0 && Filed(entries, heap, pending)
    requires var p := pending[0].timer;
      Addrs(e) <= Addrs(entries) + {p}
    ensures var m := heap[pending[0].timer := after];
      forall j :: 0 <= j < |pending[1..]| ==>
        pending[1..][j].timer !in Addrs(e) && pending[1..][j].timer in m
        && m[pending[1..][j].timer].expireTime == pending[1..][j].time
  {
    var rest := pending[1..];
    forall j | 0 <= j < |rest|
      ensures rest[j] == pending[j + 1] && rest[j].timer != pending[0].timer
    {
    }
  }

  /** Some pending pair points to the Timer at x. */
  ghost predicate Pending(pending: seq<Entry>, x: nat)
  {
    exists j :: 0 <= j < |pending| && pending[j].timer == x
  }

  /** Dropping the head of `pending` changes nothing for any other address. */
  lemma PendingTail(pending: seq<Entry>, x: nat)
    requires |pending| > 0 && pending[0].timer != x
    ensures Pending(pending, x) <==> Pending(pending[1..], x)
  {
    if Pending(pending, x) {
      var j :| 0 <= j < |pending| && pending[j].timer == x;
      assert pending[1..][j - 1].timer == x;
    }
    if Pending(pending[1..], x) {
      var j :| 0 <= j < |pending| - 1 && pending[1..][j].timer == x;
      assert pending[j + 1].timer == x;
    }
  }

  /**
   * What dispatching does to each Timer: one not pending is untouched and
   * stays filed or unfiled; a pending one has executed once and is filed
   * again exactly when it repeats; exactly the pending Timers with a
   * callback run it.
   */
  lemma {:induction false} DispatchEffect(entries: seq<Entry>, heap: map<nat, TimerState>, pending: seq<Entry>, now: int, x: nat)
    requires Filed(entries, heap, pending) && x in heap
    ensures var d := Dispatch(entries, heap, pending, now);
      !Pending(pending, x) ==> d.heap[x] == heap[x] && (x in Addrs(d.entries) <==> x in Addrs(entries))
    ensures var d := Dispatch(entries, heap, pending, now);
      Pending(pending, x) ==> d.heap[x] == ExecuteSpec(heap[x], now) && (x in Addrs(d.entries) <==> heap[x].Repeats())
    ensures x in Dispatch(entries, heap, pending, now).runs <==> Pending(pending, x) && heap[x].hasCallback
    decreases |pending|
  {
    if pending != [] {
      var p := pending[0].timer;
      var after := ExecuteSpec(heap[p], now);
      var e := if after.Repeats() then Insert(entries, Entry(after.expireTime, p)) else entries;
      var m := heap[p := after];
      var rest := pending[1..];
      FiledStep(entries, heap, pending, now);
      DispatchEffect(e, m, rest, now, x);
      if after.Repeats() {
        AddrsInsert(entries, Entry(after.expireTime, p));
      }
      if x == p {
        forall j | 0 <= j < |rest|
          ensures rest[j].timer != x
        {
          assert rest[j] == pending[j + 1];
        }
        assert Pending(pending, x) by {
          assert pending[0].timer == x;
        }
      } else {
        PendingTail(pending, x);
      }
    }
  }

  /** The pivot of getExpiredTimers: receivedTime and a fresh Timer's address. */
  function Pivot(receivedTime: int, pivotAddr: nat): Entry
  {
    Entry(receivedTime, pivotAddr)
  }

  /** Taking the first k pairs out for dispatch keeps the rest filed, with them pending. */
  lemma FiledSplit(entries: seq<Entry>, heap: map<nat, TimerState>, k: nat)
    requires Filed(entries, heap, []) && k <= |entries|
    ensures Filed(entries[k..], heap, entries[..k])
  {
    var rest := entries[k..];
    var due := entries[..k];
    forall j | 0 <= j < |due|
      ensures due[j].timer !in Addrs(rest)
    {
      forall i | 0 <= i < |rest|
        ensures rest[i].timer != due[j].timer
      {
        assert entries[k + i] == rest[i] && entries[j] == due[j];
        assert Before(entries[j], entries[k + i]);
      }
      if due[j].timer in Addrs(rest) {
        AddrsIndex(rest, due[j].timer);
      }
    }
    forall j, l | 0 <= j < l < |due|
      ensures due[j].timer != due[l].timer
    {
      assert Before(entries[j], entries[l]);
    }
  }

  /** handleRead's effect: the pairs before the pivot are taken out and dispatched. */
  function HandleReadSpec(entries: seq<Entry>, heap: map<nat, TimerState>, pivot: Entry, now: int): (d: Dispatched)
    requires Filed(entries, heap, [])
    ensures Filed(d.entries, d.heap, []) && d.heap.Keys == heap.Keys
  {
    var k := LowerBound(entries, pivot);
    FiledSplit(entries, heap, k);
    Dispatch(entries[k..], heap, entries[..k], now)
  }

  /** A filed Timer is dispatched exactly when its pair is before the pivot. */
  lemma DueIffBefore(entries: seq<Entry>, heap: map<nat, TimerState>, pivot: Entry, x: nat)
    requires Filed(entries, heap, []) && x in Addrs(entries)
    ensures x in heap
    ensures Pending(entries[..LowerBound(entries, pivot)], x) <==> Before(Entry(heap[x].expireTime, x), pivot)
    ensures !Before(Entry(heap[x].expireTime, x), pivot) ==> x in Addrs(entries[LowerBound(entries, pivot)..])
  {
    var k := LowerBound(entries, pivot);
    LowerBoundSplits(entries, pivot);
    AddrsIndex(entries, x);
    var i :| 0 <= i < |entries| && entries[i].timer == x;
    assert entries[i] == Entry(heap[x].expireTime, x);
    if i < k {
      assert entries[..k][i].timer == x;
    } else {
      assert entries[k..][i - k] == entries[i];
      forall j | 0 <= j < k
        ensures entries[..k][j].timer != x
      {
        assert Before(entries[j], entries[i]);
      }
    }
  }

  /**
   * After handleRead a filed Timer whose pair is not before the pivot is
   * untouched and still filed; one before it has executed once and is
   * filed again exactly when it repeats; exactly those with a callback ran
   * it; a Timer not filed is untouched.
   */
  lemma HandleReadEffect(entries: seq<Entry>, heap: map<nat, TimerState>, pivot: Entry, now: int, x: nat)
    requires Filed(entries, heap, []) && x in heap
    ensures var d := HandleReadSpec(entries, heap, pivot, now);
      x !in Addrs(entries) ==> d.heap[x] == heap[x] && x !in Addrs(d.entries) && x !in d.runs
    ensures var d := HandleReadSpec(entries, heap, pivot, now);
      x in Addrs(entries) && !Before(Entry(heap[x].expireTime, x), pivot) ==>
        d.heap[x] == heap[x] && x in Addrs(d.entries) && x !in d.runs
    ensures var d := HandleReadSpec(entries, heap, pivot, now);
      x in Addrs(entries) && Before(Entry(heap[x].expireTime, x), pivot) ==>
        && d.heap[x] == ExecuteSpec(heap[x], now)
        && (x in Addrs(d.entries) <==> heap[x].Repeats())
        && (x in d.runs <==> heap[x].hasCallback)
  {
    var k := LowerBound(entries, pivot);
    FiledSplit(entries, heap, k);
    DispatchEffect(entries[k..], heap, entries[..k], now, x);
    if x in Addrs(entries) {
      DueIffBefore(entries, heap, pivot, x);
    } else {
      forall j | 0 <= j < k
        ensures entries[..k][j].timer != x
      {
        assert entries[..k][j] == entries[j];
      }
      forall i | 0 <= i < |entries| - k
        ensures entries[k..][i].timer != x
      {
        assert entries[k..][i] == entries[k + i];
      }
      if x in Addrs(entries[k..]) {
        AddrsIndex(entries[k..], x);
      }
    }
  }

  /** If some Timer is not yet due, or repeats, handleRead leaves a pair to re-arm to. */
  lemma HandleReadLeavesOne(entries: seq<Entry>, heap: map<nat, TimerState>, pivot: Entry, now: int, i: nat)
    requires Filed(entries, heap, []) && i < |entries|
    requires !Before(entries[i], pivot) || heap[entries[i].timer].Repeats()
    ensures HandleReadSpec(entries, heap, pivot, now).entries != []
  {
    var x := entries[i].timer;
    assert x in Addrs(entries);
    assert entries[i] == Entry(heap[x].expireTime, x);
    HandleReadEffect(entries, heap, pivot, now, x);
    var d := HandleReadSpec(entries, heap, pivot, now);
    assert x in Addrs(d.entries);
  }

  /** Some pair remains after handleRead when one is not before the pivot or its Timer repeats. */
  lemma HandleReadLeavesSome(entries: seq<Entry>, heap: map<nat, TimerState>, pivot: Entry, now: int)
    requires Filed(entries, heap, [])
    requires exists i :: 0 <= i < |entries| && (!Before(entries[i], pivot) || heap[entries[i].timer].Repeats())
    ensures HandleReadSpec(entries, heap, pivot, now).entries != []
  {
    var keeper :| 0 <= keeper < |entries| && (!Before(entries[keeper], pivot) || heap[entries[keeper].timer].Repeats());
    HandleReadLeavesOne(entries, heap, pivot, now, keeper);
  }

  /** No pair remains after handleRead when every pair is before the pivot and no Timer repeats. */
  lemma HandleReadEmpties(entries: seq<Entry>, heap: map<nat, TimerState>, pivot: Entry, now: int)
    requires Filed(entries, heap, [])
    requires forall i :: 0 <= i < |entries| ==> Before(entries[i], pivot) && !heap[entries[i].timer].Repeats()
    ensures HandleReadSpec(entries, heap, pivot, now).entries == []
  {
    var d := HandleReadSpec(entries, heap, pivot, now);
    forall x | x in heap
      ensures x !in Addrs(d.entries)
    {
      if x in Addrs(entries) {
        AddrsIndex(entries, x);
        var i :| 0 <= i < |entries| && entries[i].timer == x;
        assert entries[i] == Entry(heap[x].expireTime, x);
      }
      HandleReadEffect(entries, heap, pivot, now, x);
    }
  }

  /**
   * A pair stays in timers_ after handleRead exactly when some pair is not
   * before the pivot or its Timer repeats; otherwise the set is empty and
   * there is nothing to re-arm the timerfd from.
   */
  lemma HandleReadLeavesIff(entries: seq<Entry>, heap: map<nat, TimerState>, pivot: Entry, now: int)
    requires Filed(entries, heap, [])
    ensures HandleReadSpec(entries, heap, pivot, now).entries != [] <==>
      exists i :: 0 <= i < |entries| && (!Before(entries[i], pivot) || heap[entries[i].timer].Repeats())
  {
    if exists i :: 0 <= i < |entries| && (!Before(entries[i], pivot) || heap[entries[i].timer].Repeats()) {
      HandleReadLeavesSome(entries, heap, pivot, now);
    } else {
      HandleReadEmpties(entries, heap, pivot, now);
    }
  }

  /**
   * The commonest run empties the set: the only Timer is a one-shot that
   * fires, and handleRead's final cbegin() then reads the end of an empty set.
   */
  lemma SingleOneShotEmptiesSet()
    ensures var heap := map[16 := TimerState(1, 5, 0, true)];
      Filed([Entry(5, 16)], heap, []) &&
      HandleReadSpec([Entry(5, 16)], heap, Pivot(6, 32), 6).entries == []
  {
    var heap := map[16 := TimerState(1, 5, 0, true)];
    assert Before(Entry(5, 16), Pivot(6, 32));
    HandleReadEmpties([Entry(5, 16)], heap, Pivot(6, 32), 6);
  }

  /** The outcome of dispatching the rest, after callbacks `done` have already run. */
  function Resume(done: seq<nat>, rest: Dispatched): (d: Dispatched)
    ensures d.entries == rest.entries && d.heap == rest.heap && |d.runs| == |done| + |rest.runs|
  {
    Dispatched(rest.entries, rest.heap, done + rest.runs)
  }

  lemma ResumeTwice(rs: seq<nat>, ran: seq<nat>, x: Dispatched)
    ensures Resume(rs, Resume(ran, x)) == Resume(rs + ran, x)
  {
    assert rs + (ran + x.runs) == (rs + ran) + x.runs;
  }

  /** One turn of handleRead's loop keeps the outcome of the whole dispatch. */
  lemma RunStep(es: seq<Entry>, heap: map<nat, TimerState>, rs: seq<nat>, expired: seq<Entry>, i: nat, now: int)
    requires i < |expired| && Filed(es, heap, expired[i..])
    ensures var p := expired[i].timer;
      var after := ExecuteSpec(heap[p], now);
      var e := if after.Repeats() then Insert(es, Entry(after.expireTime, p)) else es;
      && Filed(e, heap[p := after], expired[i + 1..])
      && Resume(if heap[p].hasCallback then rs + [p] else rs, Dispatch(e, heap[p := after], expired[i + 1..], now)) ==
           Resume(rs, Dispatch(es, heap, expired[i..], now))
  {
    var pending := expired[i..];
    var p := expired[i].timer;
    assert pending[0] == expired[i] && pending[1..] == expired[i + 1..];
    FiledStep(es, heap, pending, now);
    var after := ExecuteSpec(heap[p], now);
    var e := if after.Repeats() then Insert(es, Entry(after.expireTime, p)) else es;
    var ran := if heap[p].hasCallback then [p] else [];
    assert rs + ran == if heap[p].hasCallback then rs + [p] else rs;
    ResumeTwice(rs, ran, Dispatch(e, heap[p := after], expired[i + 1..], now));
  }

  /** The loop of handleRead over the expired pairs, in order. */
  method RunExpired(entries: seq<Entry>, heap: map<nat, TimerState>, expired: seq<Entry>, now: int)
    returns (d: Dispatched)
    requires Filed(entries, heap, expired)
    ensures d == Dispatch(entries, heap, expired, now)
  {
    ghost var target := Dispatch(entries, heap, expired, now);
    var es, ms, rs := entries, heap, [];
    var i := 0;
    assert expired[0..] == expired;
    while i < |expired|
      invariant 0 <= i <= |expired|
      invariant Filed(es, ms, expired[i..])
      invariant Resume(rs, Dispatch(es, ms, expired[i..], now)) == target
    {
      var timer := expired[i].timer;
      RunStep(es, ms, rs, expired, i, now);
      var after := ExecuteSpec(ms[timer], now);
      if ms[timer].hasCallback {
        rs := rs + [timer];
      }
      if after.Repeats() {
        es := Insert(es, Entry(after.expireTime, timer));
      }
      ms := ms[timer := after];
      i := i + 1;
    }
    assert expired[i..] == [];
    assert Dispatch(es, ms, [], now) == Dispatched(es, ms, []);
    d := Dispatched(es, ms, rs);
  }

  class TimerManager {
    var entries: seq<Entry>
    /** The live Timer objects, by address. */
    var heap: map<nat, TimerState>
    /** The expiry each timerfd_settime was asked for, in order. */
    var rearms: seq<int>
    /** The addresses of the Timers whose callbacks ran, in order. */
    var runs: seq<nat>
    /** timerfd reads. */
    var fdReads: nat

    ghost predicate Valid()
      reads this
    {
      Filed(entries, heap, [])
    }

    constructor ()
      ensures Valid() && entries == [] && heap == map[] && rearms == [] && runs == [] && fdReads == 0
    {
      entries := [];
      heap := map[];
      rearms := [];
      runs := [];
      fdReads := 0;
    }

    /**
     * addTimerInLoop: a null timer is ignored; otherwise (dst, timer) is
     * inserted, and the kernel timer is re-armed to dst iff the set was
     * empty or its earliest expiry is strictly later than dst.
     */
    method AddTimerInLoop(timer: nat, state: TimerState)
      requires Valid() && timer !in Addrs(entries)
      modifies this
      ensures Valid()
      ensures timer == 0 ==> entries == old(entries) && heap == old(heap) && rearms == old(rearms)
      ensures timer != 0 ==> heap == old(heap)[timer := state]
      ensures timer != 0 ==> entries == Insert(old(entries), Entry(state.expireTime, timer))
      ensures timer != 0 ==>
        rearms == old(rearms) + (if old(entries) == [] || old(entries)[0].time > state.expireTime then [state.expireTime] else [])
      ensures runs == old(runs) && fdReads == old(fdReads)
    {
      if timer == 0 {
        return;
      }
      var dst := state.expireTime;
      var needToResetTimerFd := false;
      var expireTime := 0;
      if entries == [] {
        needToResetTimerFd := true;
        expireTime := dst;
      } else {
        var firstExpireTime := entries[0].time;
        if firstExpireTime > dst {
          needToResetTimerFd := true;
          expireTime := dst;
        } else {
          expireTime := firstExpireTime;
        }
      }
      FiledAdd(entries, heap, timer, state);
      entries := Insert(entries, Entry(dst, timer));
      heap := heap[timer := state];
      if needToResetTimerFd {
        rearms := rearms + [expireTime];
      }
    }

    /**
     * getExpiredTimers: the pairs ordered before (receivedTime, pivot
     * address) leave timers_ and are returned in order.
     */
    method GetExpiredTimers(pivot: Entry) returns (expired: seq<Entry>)
      requires Valid()
      modifies this`entries
      ensures expired == old(entries)[..LowerBound(old(entries), pivot)]
      ensures entries == old(entries)[LowerBound(old(entries), pivot)..]
      ensures forall i :: 0 <= i < |expired| ==> Before(expired[i], pivot)
      ensures forall i :: 0 <= i < |entries| ==> !Before(entries[i], pivot)
      ensures Filed(entries, heap, expired)
    {
      var all := entries;
      var k := LowerBound(all, pivot);
      LowerBoundSplits(all, pivot);
      FiledSplit(all, heap, k);
      expired := all[..k];
      entries := all[k..];
    }

    /**
     * handleRead: every expired Timer executes once, in order, and a
     * repeating one is inserted again at its new expiry; then the kernel
     * timer is re-armed to the earliest pair, so one must remain. The pivot
     * holds a freshly allocated Timer, whose address no pair shares.
     */
    method HandleRead(receivedTime: int, pivotAddr: nat, now: int)
      requires Valid() && pivotAddr != 0 && pivotAddr !in Addrs(entries)
      modifies this
      ensures Valid() && fdReads == old(fdReads) + 1
      ensures var d := HandleReadSpec(old(entries), old(heap), Pivot(receivedTime, pivotAddr), now);
        entries == d.entries && heap == d.heap && runs == old(runs) + d.runs
      ensures entries != [] ==> rearms == old(rearms) + [entries[0].time]
      ensures entries == [] ==> rearms == old(rearms)
    {
      fdReads := fdReads + 1;
      DispatchExpired(Pivot(receivedTime, pivotAddr), now);
      if entries != [] {
        rearms := rearms + [entries[0].time];
      }
    }

    /**
     * The part of handleRead between reading the timerfd and re-arming it.
     * A pair stays exactly when one was not before the pivot or its Timer
     * repeats.
     */
    method DispatchExpired(pivot: Entry, now: int)
      requires Valid()
      modifies this`entries, this`heap, this`runs
      ensures Valid()
      ensures |entries| > 0 <==>
        exists i :: 0 <= i < |old(entries)| && (!Before(old(entries)[i], pivot) || old(heap)[old(entries)[i].timer].Repeats())
      ensures var d := HandleReadSpec(old(entries), old(heap), pivot, now);
        entries == d.entries && heap == d.heap && runs == old(runs) + d.runs
    {
      HandleReadLeavesIff(entries, heap, pivot, now);
      var expired := GetExpiredTimers(pivot);
      var d := RunExpired(entries, heap, expired, now);
      entries, heap, runs := d.entries, d.heap, runs + d.runs;
    }
  }

  /** Inserting a new Timer keeps timers_ filed. */
  lemma FiledAdd(entries: seq<Entry>, heap: map<nat, TimerState>, timer: nat, state: TimerState)
    requires Filed(entries, heap, []) && timer != 0 && timer !in Addrs(entries)
    ensures Filed(Insert(entries, Entry(state.expireTime, timer)), heap[timer := state], [])
  {
    var r := Insert(entries, Entry(state.expireTime, timer));
    forall i | 0 <= i < |r|
      ensures r[i].timer != 0 && r[i].timer in heap[timer := state]
      ensures heap[timer := state][r[i].timer].expireTime == r[i].time
    {
      assert r[i] in r;
      if r[i] != Entry(state.expireTime, timer) {
        var k :| 0 <= k < |entries| && entries[k] == r[i];
      }
    }
  }
}
