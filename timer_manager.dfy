/**
 * TimerManager (wind/base/TimerManager.cpp): timers keyed by TimerId in
 * timers_, and the ordered set timerEntries_ of (expiry, TimerId) that says
 * which fires first. The kernel timer is re-armed through timerfd_settime;
 * each re-arm is logged with the expiry it targets, each timerfd read and
 * each callback run is counted or logged. Clock readings are parameters.
 * Times are microseconds.
 */
module TimerManager {
  import opened TimerId
  import opened Timer
  import opened TimerEntries
  import Numerals

  const MICRO_SECS_PER_SECOND: int := 1_000_000
  const NANO_SECS_PER_MICROSECOND: int := 1_000
  const NANO_SECS_PER_SECOND: int := 1_000_000_000

  /** itimerspec's it_value. */
  datatype TimerSpec = TimerSpec(sec: int, nsec: int)

  function Max(a: int, b: int): int
  {
    if a >= b then a else b
  }

  /**
   * generateTimerSpec: the delay until dstTime, at least one microsecond,
   * split into seconds and nanoseconds.
   */
  function GenerateTimerSpec(dstTime: int, now: int): (s: TimerSpec)
    ensures 0 <= s.nsec < NANO_SECS_PER_SECOND && s.sec >= 0
    ensures s.sec * NANO_SECS_PER_SECOND + s.nsec == Max(1, dstTime - now) * NANO_SECS_PER_MICROSECOND
  {
    var diffMicros := Max(1, dstTime - now);
    MicrosToSpec(diffMicros);
    TimerSpec(diffMicros / MICRO_SECS_PER_SECOND, (diffMicros * NANO_SECS_PER_MICROSECOND) % NANO_SECS_PER_SECOND)
  }

  lemma MicrosToSpec(d: int)
    requires d >= 1
    ensures (d * 1000) % 1_000_000_000 == (d % 1_000_000) * 1000
    ensures (d / 1_000_000) * 1_000_000_000 + (d % 1_000_000) * 1000 == d * 1000
  {
    var q := d / 1_000_000;
    var r := d % 1_000_000;
    assert d * 1000 == q * 1_000_000_000 + r * 1000;
    Numerals.ModUnique(d * 1000, 1_000_000_000, q, r * 1000);
  }

  /** The delay programmed is never zero, so the kernel timer always fires. */
  lemma SpecPositive(dstTime: int, now: int)
    ensures var s := GenerateTimerSpec(dstTime, now);
      s.sec > 0 || s.nsec > 0
  {
  }

  /** The TimerIds an entry sequence carries. */
  function Ids(s: seq<TimerEntry>): (r: set<TimerId>)
    ensures forall i :: 0 <= i < |s| ==> s[i].id in r
    ensures |r| <= |s|
  {
    if s == [] then {} else {s[0].id} + Ids(s[1..])
  }

  /** Every carried TimerId comes from some entry. */
  lemma {:induction false} IdsIndex(s: seq<TimerEntry>, x: TimerId)
    requires x in Ids(s)
    ensures exists i :: 0 <= i < |s| && s[i].id == x
  {
    if s[0].id != x {
      IdsIndex(s[1..], x);
      var i :| 0 <= i < |s| - 1 && s[1..][i].id == x;
      assert s[i + 1].id == x;
    }
  }

  /** An entry's TimerId is among the carried ones. */
  lemma InIds(s: seq<TimerEntry>, e: TimerEntry)
    requires e in s
    ensures e.id in Ids(s)
  {
    var i :| 0 <= i < |s| && s[i] == e;
  }

  /**
   * timerEntries_ and timers_ agree: they hold the same TimerIds, each entry
   * carries its timer's expiry, and an entry still being dispatched (in
   * `pending`) has left timerEntries_ but not timers_.
   */
  ghost predicate Agree(entries: seq<TimerEntry>, timers: map<TimerId, TimerState>, pending: seq<TimerEntry>)
  {
    && Sorted(entries)
    && (forall i :: 0 <= i < |entries| ==> entries[i].id in timers && timers[entries[i].id].expireTime == entries[i].time)
    && (forall j :: 0 <= j < |pending| ==> pending[j].id in timers && timers[pending[j].id].expireTime == pending[j].time)
    && (forall i, j :: 0 <= i < |entries| && 0 <= j < |pending| ==> entries[i].id != pending[j].id)
    && (forall j, k :: 0 <= j < k < |pending| ==> pending[j].id != pending[k].id)
    && (forall id :: id in timers ==> id in Ids(entries) || id in Ids(pending))
    && (forall id :: id in timers ==> timers[id].id == id.id)
  }

  /** Every timer is filed under its expiry, in the entries or among the pending ones. */
  lemma FiledEntry(entries: seq<TimerEntry>, timers: map<TimerId, TimerState>, pending: seq<TimerEntry>, id: TimerId)
    requires Agree(entries, timers, pending) && id in timers
    ensures TimerEntry(timers[id].expireTime, id) in entries || TimerEntry(timers[id].expireTime, id) in pending
  {
    if id in Ids(entries) {
      IdsIndex(entries, id);
      var i :| 0 <= i < |entries| && entries[i].id == id;
      assert entries[i] == TimerEntry(timers[id].expireTime, id);
    } else {
      IdsIndex(pending, id);
      var j :| 0 <= j < |pending| && pending[j].id == id;
      assert pending[j] == TimerEntry(timers[id].expireTime, id);
    }
  }

  /** The map after one expired timer has executed: re-filed if it repeats, erased if not. */
  function Fire(timers: map<TimerId, TimerState>, id: TimerId, now: int): (r: map<TimerId, TimerState>)
    requires id in timers
    ensures timers[id].Repeats() ==> r == timers[id := ExecuteSpec(timers[id], now)]
    ensures !timers[id].Repeats() ==> r == timers - {id}
  {
    var after := ExecuteSpec(timers[id], now);
    if after.Repeats() then timers[id := after] else timers - {id}
  }

  /** The timer entries after one expired timer has executed. */
  function Refile(entries: seq<TimerEntry>, timers: map<TimerId, TimerState>, id: TimerId, now: int): (r: seq<TimerEntry>)
    requires Sorted(entries) && id in timers
    ensures timers[id].Repeats() ==> r == Insert(entries, TimerEntry(ExecuteSpec(timers[id], now).expireTime, id))
    ensures !timers[id].Repeats() ==> r == entries
  {
    var after := ExecuteSpec(timers[id], now);
    if after.Repeats() then Insert(entries, TimerEntry(after.expireTime, id)) else entries
  }

  /** Filing a new timer keeps the two containers in agreement. */
  lemma AgreeInsert(entries: seq<TimerEntry>, timers: map<TimerId, TimerState>, id: TimerId, t: TimerState)
    requires Agree(entries, timers, []) && id !in timers && t.id == id.id
    ensures Agree(Insert(entries, TimerEntry(t.expireTime, id)), timers[id := t], [])
  {
    var e := TimerEntry(t.expireTime, id);
    var r := Insert(entries, e);
    var m := timers[id := t];
    forall i | 0 <= i < |r|
      ensures r[i].id in m && m[r[i].id].expireTime == r[i].time
    {
      if r[i] != e {
        assert r[i] in r;
        assert r[i] in entries;
        var k :| 0 <= k < |entries| && entries[k] == r[i];
      }
    }
    forall x | x in m
      ensures x in Ids(r)
    {
      if x == id {
        InIds(r, e);
      } else {
        FiledEntry(entries, timers, [], x);
        InIds(r, TimerEntry(timers[x].expireTime, x));
      }
    }
  }

  /** Erasing a timer from both containers keeps them in agreement. */
  lemma AgreeRemove(entries: seq<TimerEntry>, timers: map<TimerId, TimerState>, id: TimerId)
    requires Agree(entries, timers, []) && id in timers
    ensures TimerEntry(timers[id].expireTime, id) in entries
    ensures Agree(Remove(entries, TimerEntry(timers[id].expireTime, id)), timers - {id}, [])
  {
    var e := TimerEntry(timers[id].expireTime, id);
    var r := Remove(entries, e);
    var m := timers - {id};
    forall i | 0 <= i < |r|
      ensures r[i].id in m && m[r[i].id].expireTime == r[i].time
    {
      assert r[i] in r;
      assert r[i] in entries;
      var k :| 0 <= k < |entries| && entries[k] == r[i];
    }
    FiledEntry(entries, timers, [], id);
    forall x | x in m
      ensures x in Ids(r)
    {
      FiledEntry(entries, timers, [], x);
      InIds(r, TimerEntry(timers[x].expireTime, x));
    }
  }

  /** The entries before the lower bound of the pivot are due, the rest are not, and the two still agree with the map. */
  lemma ExpiredSplit(all: seq<TimerEntry>, timers: map<TimerId, TimerState>, t: int, expired: seq<TimerEntry>, rest: seq<TimerEntry>)
    requires Agree(all, timers, [])
    requires expired == all[..LowerBound(all, Pivot(t))] && rest == all[LowerBound(all, Pivot(t))..]
    ensures expired + rest == all
    ensures forall i :: 0 <= i < |expired| ==> expired[i].time < t
    ensures forall i :: 0 <= i < |rest| ==> rest[i].time >= t
    ensures Agree(rest, timers, expired)
  {
    var k := LowerBound(all, Pivot(t));
    LowerBoundSplits(all, t);
    AgreeSplit(all, timers, k);
    assert all == expired + rest;
    forall i | 0 <= i < |rest| ensures rest[i].time >= t {
      assert rest[i] == all[k + i];
    }
  }

  /** Taking the first k entries out for dispatch keeps agreement, with them pending. */
  lemma AgreeSplit(entries: seq<TimerEntry>, timers: map<TimerId, TimerState>, k: nat)
    requires Agree(entries, timers, []) && k <= |entries|
    ensures Agree(entries[k..], timers, entries[..k])
  {
    var rest := entries[k..];
    var due := entries[..k];
    SplitDisjoint(entries, timers, k);
    SplitDistinct(entries, timers, k);
    SplitCovers(entries, timers, k);
    assert forall i :: 0 <= i < |rest| ==> rest[i] == entries[k + i];
  }

  /** In agreeing containers two entries with the same TimerId are the same entry. */
  lemma SameIdSameEntry(entries: seq<TimerEntry>, timers: map<TimerId, TimerState>, i: nat, j: nat)
    requires Agree(entries, timers, []) && i < |entries| && j < |entries|
    ensures entries[i].id == entries[j].id ==> i == j
  {
    if entries[i].id == entries[j].id {
      SortedDistinct(entries, i, j);
    }
  }

  lemma SplitDisjoint(entries: seq<TimerEntry>, timers: map<TimerId, TimerState>, k: nat)
    requires Agree(entries, timers, []) && k <= |entries|
    ensures forall i, j :: 0 <= i < |entries[k..]| && 0 <= j < |entries[..k]| ==> entries[k..][i].id != entries[..k][j].id
  {
    forall i, j | 0 <= i < |entries[k..]| && 0 <= j < |entries[..k]|
      ensures entries[k..][i].id != entries[..k][j].id
    {
      SameIdSameEntry(entries, timers, k + i, j);
    }
  }

  lemma SplitDistinct(entries: seq<TimerEntry>, timers: map<TimerId, TimerState>, k: nat)
    requires Agree(entries, timers, []) && k <= |entries|
    ensures forall j, l :: 0 <= j < l < |entries[..k]| ==> entries[..k][j].id != entries[..k][l].id
  {
    forall j, l | 0 <= j < l < |entries[..k]|
      ensures entries[..k][j].id != entries[..k][l].id
    {
      SameIdSameEntry(entries, timers, j, l);
    }
  }

  lemma SplitCovers(entries: seq<TimerEntry>, timers: map<TimerId, TimerState>, k: nat)
    requires Agree(entries, timers, []) && k <= |entries|
    ensures forall x :: x in timers ==> x in Ids(entries[k..]) || x in Ids(entries[..k])
  {
    forall x | x in timers
      ensures x in Ids(entries[k..]) || x in Ids(entries[..k])
    {
      FiledEntry(entries, timers, [], x);
      var i :| 0 <= i < |entries| && entries[i] == TimerEntry(timers[x].expireTime, x);
      if i < k {
        assert entries[..k][i] == entries[i];
      } else {
        assert entries[k..][i - k] == entries[i];
      }
    }
  }

  /** Executing the first pending timer keeps agreement with the rest pending. */
  lemma AgreeFire(entries: seq<TimerEntry>, timers: map<TimerId, TimerState>, pending: seq<TimerEntry>, now: int)
    requires |pending| > 0 && Agree(entries, timers, pending)
    ensures Agree(Refile(entries, timers, pending[0].id, now), Fire(timers, pending[0].id, now), pending[1..])
  {
    var id := pending[0].id;
    var r := Refile(entries, timers, id, now);
    var m := Fire(timers, id, now);
    var rest := pending[1..];
    forall j | 0 <= j < |rest|
      ensures rest[j] == pending[j + 1] && rest[j].id != id
    {
    }
    FireOthers(timers, id, now);
    RefiledAgree(entries, timers, pending, now, r, m);
    RefiledApart(entries, timers, pending, now, r);
    RefiledCovers(entries, timers, pending, now, r, m);
  }

  /** Every entry after refiling is filed in the fired map under its own time. */
  lemma RefiledAgree(entries: seq<TimerEntry>, timers: map<TimerId, TimerState>, pending: seq<TimerEntry>, now: int,
                     r: seq<TimerEntry>, m: map<TimerId, TimerState>)
    requires |pending| > 0 && Agree(entries, timers, pending)
    requires r == Refile(entries, timers, pending[0].id, now) && m == Fire(timers, pending[0].id, now)
    ensures forall i :: 0 <= i < |r| ==> r[i].id in m && m[r[i].id].expireTime == r[i].time
  {
    var id := pending[0].id;
    var after := ExecuteSpec(timers[id], now);
    forall i | 0 <= i < |r|
      ensures r[i].id in m && m[r[i].id].expireTime == r[i].time
    {
      if r[i] != TimerEntry(after.expireTime, id) {
        assert r[i] in r;
        assert r[i] in entries;
        var k :| 0 <= k < |entries| && entries[k] == r[i];
      }
    }
  }

  /** No refiled entry is still pending. */
  lemma RefiledApart(entries: seq<TimerEntry>, timers: map<TimerId, TimerState>, pending: seq<TimerEntry>, now: int,
                     r: seq<TimerEntry>)
    requires |pending| > 0 && Agree(entries, timers, pending)
    requires r == Refile(entries, timers, pending[0].id, now)
    ensures forall i, j :: 0 <= i < |r| && 0 <= j < |pending[1..]| ==> r[i].id != pending[1..][j].id
  {
    var id := pending[0].id;
    var after := ExecuteSpec(timers[id], now);
    var rest := pending[1..];
    forall i, j | 0 <= i < |r| && 0 <= j < |rest|
      ensures r[i].id != rest[j].id
    {
      assert rest[j] == pending[j + 1];
      if r[i] != TimerEntry(after.expireTime, id) {
        assert r[i] in r;
        assert r[i] in entries;
        var k :| 0 <= k < |entries| && entries[k] == r[i];
      }
    }
  }

  /** Every timer still in the map is refiled or still pending. */
  lemma RefiledCovers(entries: seq<TimerEntry>, timers: map<TimerId, TimerState>, pending: seq<TimerEntry>, now: int,
                      r: seq<TimerEntry>, m: map<TimerId, TimerState>)
    requires |pending| > 0 && Agree(entries, timers, pending)
    requires r == Refile(entries, timers, pending[0].id, now) && m == Fire(timers, pending[0].id, now)
    ensures forall x :: x in m ==> x in Ids(r) || x in Ids(pending[1..])
  {
    var id := pending[0].id;
    var after := ExecuteSpec(timers[id], now);
    var rest := pending[1..];
    forall x | x in m
      ensures x in Ids(r) || x in Ids(rest)
    {
      if x == id {
        InIds(r, TimerEntry(after.expireTime, id));
      } else {
        var e := TimerEntry(timers[x].expireTime, x);
        FiledEntry(entries, timers, pending, x);
        if e in pending {
          var j :| 0 <= j < |pending| && pending[j] == e;
          assert rest[j - 1] == e;
        } else {
          InIds(r, e);
        }
      }
    }
  }

  /** Both containers, and the callbacks run, after the pending timers have executed. */
  datatype Dispatched = Dispatched(entries: seq<TimerEntry>, timers: map<TimerId, TimerState>, runs: seq<TimerId>)

  /**
   * The loop of handleRead over the expired entries: each executes in
   * order, running its callback if it has one, and is filed again or erased.
   */
  function Dispatch(entries: seq<TimerEntry>, timers: map<TimerId, TimerState>, pending: seq<TimerEntry>, now: int): (d: Dispatched)
    requires Agree(entries, timers, pending)
    ensures Agree(d.entries, d.timers, [])
    ensures d.timers.Keys <= timers.Keys && |d.runs| <= |pending|
    decreases |pending|
  {
    if pending == [] then Dispatched(entries, timers, [])
    else
      var id := pending[0].id;
      AgreeFire(entries, timers, pending, now);
      var rest := Dispatch(Refile(entries, timers, id, now), Fire(timers, id, now), pending[1..], now);
      Dispatched(rest.entries, rest.timers, (if timers[id].hasCallback then [id] else []) + rest.runs)
  }

  /** No pending entry carries this TimerId. */
  ghost predicate NotPending(pending: seq<TimerEntry>, id: TimerId)
  {
    forall j :: 0 <= j < |pending| ==> pending[j].id != id
  }

  /** Dropping the head of `pending` changes nothing for any other TimerId. */
  lemma NotPendingTail(pending: seq<TimerEntry>, x: TimerId)
    requires |pending| > 0 && pending[0].id != x
    ensures NotPending(pending, x) <==> NotPending(pending[1..], x)
  {
    if !NotPending(pending[1..], x) {
      var j :| 0 <= j < |pending| - 1 && pending[1..][j].id == x;
      assert pending[j + 1].id == x;
    }
  }

  /** The head of the pending entries does not recur in their tail. */
  lemma HeadNotPending(entries: seq<TimerEntry>, timers: map<TimerId, TimerState>, pending: seq<TimerEntry>)
    requires |pending| > 0 && Agree(entries, timers, pending)
    ensures NotPending(pending[1..], pending[0].id)
  {
    forall j | 0 <= j < |pending| - 1 ensures pending[1..][j].id != pending[0].id {
      assert pending[1..][j] == pending[j + 1];
    }
  }

  /** The outcome of dispatching the rest, after callbacks `done` have already run. */
  function Resume(done: seq<TimerId>, rest: Dispatched): (d: Dispatched)
    ensures d.entries == rest.entries && d.timers == rest.timers && |d.runs| == |done| + |rest.runs|
  {
    Dispatched(rest.entries, rest.timers, done + rest.runs)
  }

  /** One step of Dispatch, unfolded. */
  lemma DispatchStep(entries: seq<TimerEntry>, timers: map<TimerId, TimerState>, pending: seq<TimerEntry>, now: int)
    requires |pending| > 0 && Agree(entries, timers, pending)
    ensures Agree(Refile(entries, timers, pending[0].id, now), Fire(timers, pending[0].id, now), pending[1..])
    ensures var id := pending[0].id;
      var rest := Dispatch(Refile(entries, timers, id, now), Fire(timers, id, now), pending[1..], now);
      Dispatch(entries, timers, pending, now) == Resume(if timers[id].hasCallback then [id] else [], rest)
  {
    AgreeFire(entries, timers, pending, now);
  }

  /** Dispatching leaves a timer that is not pending untouched. */
  lemma {:induction false} DispatchUntouched(entries: seq<TimerEntry>, timers: map<TimerId, TimerState>, pending: seq<TimerEntry>, now: int, x: TimerId)
    requires Agree(entries, timers, pending) && x in timers && NotPending(pending, x)
    ensures x in Dispatch(entries, timers, pending, now).timers
    ensures Dispatch(entries, timers, pending, now).timers[x] == timers[x]
    decreases |pending|
  {
    if pending != [] {
      var id := pending[0].id;
      DispatchStep(entries, timers, pending, now);
      NotPendingTail(pending, x);
      DispatchUntouched(Refile(entries, timers, id, now), Fire(timers, id, now), pending[1..], now, x);
    }
  }

  /** A pending timer has executed once: kept with its new expiry if it repeats, erased if not. */
  lemma {:induction false} DispatchExecuted(entries: seq<TimerEntry>, timers: map<TimerId, TimerState>, pending: seq<TimerEntry>, now: int, j: nat)
    requires Agree(entries, timers, pending) && j < |pending|
    ensures var id := pending[j].id;
      timers[id].Repeats() ==> (id in Dispatch(entries, timers, pending, now).timers &&
        Dispatch(entries, timers, pending, now).timers[id] == ExecuteSpec(timers[id], now))
    ensures var id := pending[j].id;
      !timers[id].Repeats() ==> id !in Dispatch(entries, timers, pending, now).timers
    decreases |pending|
  {
    var id := pending[0].id;
    DispatchStep(entries, timers, pending, now);
    var e := Refile(entries, timers, id, now);
    var m := Fire(timers, id, now);
    ghost var d := Dispatch(e, m, pending[1..], now).timers;
    assert Dispatch(entries, timers, pending, now).timers == d;
    if j == 0 {
      HeadNotPending(entries, timers, pending);
      if timers[id].Repeats() {
        DispatchUntouched(e, m, pending[1..], now, id);
        assert d[id] == m[id] == ExecuteSpec(timers[id], now);
      } else {
        assert id !in m;
      }
    } else {
      var x := pending[j].id;
      assert pending[1..][j - 1] == pending[j];
      assert x != id;
      FireOthers(timers, id, now);
      assert m[x] == timers[x];
      DispatchExecuted(e, m, pending[1..], now, j - 1);
    }
  }

  /** Exactly the pending timers that have a callback run it. */
  lemma {:induction false} DispatchRuns(entries: seq<TimerEntry>, timers: map<TimerId, TimerState>, pending: seq<TimerEntry>, now: int)
    requires Agree(entries, timers, pending)
    ensures forall x :: x in Dispatch(entries, timers, pending, now).runs <==>
      (x in timers && timers[x].hasCallback && !NotPending(pending, x))
    decreases |pending|
  {
    if pending != [] {
      var id := pending[0].id;
      DispatchStep(entries, timers, pending, now);
      var e := Refile(entries, timers, id, now);
      var m := Fire(timers, id, now);
      DispatchRuns(e, m, pending[1..], now);
      HeadNotPending(entries, timers, pending);
      FireOthers(timers, id, now);
      RunsStep(Dispatch(entries, timers, pending, now).runs, Dispatch(e, m, pending[1..], now).runs, timers, m, pending);
    }
  }

  /** Firing one timer leaves every other timer as it was. */
  lemma FireOthers(timers: map<TimerId, TimerState>, id: TimerId, now: int)
    requires id in timers
    ensures forall x :: x != id ==> (x in Fire(timers, id, now) <==> x in timers)
    ensures forall x :: x != id && x in timers ==> Fire(timers, id, now)[x] == timers[x]
  {
  }

  /** The runs of one dispatch step: the head's callback, then those of the rest. */
  lemma RunsStep(runs: seq<TimerId>, restRuns: seq<TimerId>, timers: map<TimerId, TimerState>, m: map<TimerId, TimerState>,
                 pending: seq<TimerEntry>)
    requires |pending| > 0 && pending[0].id in timers
    requires runs == (if timers[pending[0].id].hasCallback then [pending[0].id] else []) + restRuns
    requires forall x :: x in restRuns <==> (x in m && m[x].hasCallback && !NotPending(pending[1..], x))
    requires NotPending(pending[1..], pending[0].id)
    requires forall x :: x != pending[0].id ==> (x in m <==> x in timers)
    requires forall x :: x != pending[0].id && x in timers ==> m[x] == timers[x]
    ensures forall x :: x in runs <==> (x in timers && timers[x].hasCallback && !NotPending(pending, x))
  {
    forall x
      ensures x in runs <==> (x in timers && timers[x].hasCallback && !NotPending(pending, x))
    {
      if x != pending[0].id {
        NotPendingTail(pending, x);
      }
    }
  }

  /**
   * handleRead's effect on both containers: the entries before
   * (receivedTime, TimerId(0, nullptr)) are taken out and dispatched.
   */
  function HandleReadSpec(entries: seq<TimerEntry>, timers: map<TimerId, TimerState>, receivedTime: int, now: int): (d: Dispatched)
    requires Agree(entries, timers, [])
    ensures Agree(d.entries, d.timers, [])
  {
    var k := LowerBound(entries, Pivot(receivedTime));
    AgreeSplit(entries, timers, k);
    Dispatch(entries[k..], timers, entries[..k], now)
  }

  /** The entries handleRead dispatches: those before the lower bound of the pivot. */
  function Due(entries: seq<TimerEntry>, receivedTime: int): (due: seq<TimerEntry>)
    ensures |due| <= |entries| && due == entries[..|due|]
  {
    entries[..LowerBound(entries, Pivot(receivedTime))]
  }

  /** A timer is dispatched exactly when its expiry is before receivedTime. */
  lemma DueIffEarlier(entries: seq<TimerEntry>, timers: map<TimerId, TimerState>, receivedTime: int, id: TimerId)
    requires Agree(entries, timers, []) && id in timers
    ensures NotPending(Due(entries, receivedTime), id) <==> timers[id].expireTime >= receivedTime
    ensures !NotPending(Due(entries, receivedTime), id) ==>
      exists j :: 0 <= j < |Due(entries, receivedTime)| && Due(entries, receivedTime)[j].id == id
  {
    var k := LowerBound(entries, Pivot(receivedTime));
    LowerBoundSplits(entries, receivedTime);
    var due := entries[..k];
    var e := TimerEntry(timers[id].expireTime, id);
    FiledEntry(entries, timers, [], id);
    var i :| 0 <= i < |entries| && entries[i] == e;
    if i < k {
      assert due[i] == e;
    } else {
      forall j | 0 <= j < |due| ensures due[j].id != id {
        assert entries[j] == due[j];
      }
    }
  }

  /** After handleRead a timer not yet due is untouched. */
  lemma HandleReadUntouched(entries: seq<TimerEntry>, timers: map<TimerId, TimerState>, receivedTime: int, now: int, id: TimerId)
    requires Agree(entries, timers, []) && id in timers && timers[id].expireTime >= receivedTime
    ensures id in HandleReadSpec(entries, timers, receivedTime, now).timers
    ensures HandleReadSpec(entries, timers, receivedTime, now).timers[id] == timers[id]
  {
    var k := LowerBound(entries, Pivot(receivedTime));
    AgreeSplit(entries, timers, k);
    DueIffEarlier(entries, timers, receivedTime, id);
    DispatchUntouched(entries[k..], timers, entries[..k], now, id);
  }

  /** After handleRead a due timer has run once, and is kept only if it repeats. */
  lemma HandleReadExecuted(entries: seq<TimerEntry>, timers: map<TimerId, TimerState>, receivedTime: int, now: int, id: TimerId)
    requires Agree(entries, timers, []) && id in timers && timers[id].expireTime < receivedTime
    ensures timers[id].Repeats() ==> (id in HandleReadSpec(entries, timers, receivedTime, now).timers &&
      HandleReadSpec(entries, timers, receivedTime, now).timers[id] == ExecuteSpec(timers[id], now))
    ensures !timers[id].Repeats() ==> id !in HandleReadSpec(entries, timers, receivedTime, now).timers
  {
    var k := LowerBound(entries, Pivot(receivedTime));
    AgreeSplit(entries, timers, k);
    DueIffEarlier(entries, timers, receivedTime, id);
    var j :| 0 <= j < k && entries[..k][j].id == id;
    DispatchExecuted(entries[k..], timers, entries[..k], now, j);
  }

  /** After handleRead exactly the due timers with a callback have run it. */
  lemma HandleReadRuns(entries: seq<TimerEntry>, timers: map<TimerId, TimerState>, receivedTime: int, now: int)
    requires Agree(entries, timers, [])
    ensures forall x :: x in HandleReadSpec(entries, timers, receivedTime, now).runs <==>
      (x in timers && timers[x].hasCallback && timers[x].expireTime < receivedTime)
  {
    var k := LowerBound(entries, Pivot(receivedTime));
    AgreeSplit(entries, timers, k);
    DispatchRuns(entries[k..], timers, entries[..k], now);
    forall x | x in timers
      ensures NotPending(entries[..k], x) <==> timers[x].expireTime >= receivedTime
    {
      DueIffEarlier(entries, timers, receivedTime, x);
    }
  }

  /** If a timer is not yet due or repeats, handleRead leaves an entry to re-arm to. */
  lemma HandleReadLeavesOne(entries: seq<TimerEntry>, timers: map<TimerId, TimerState>, receivedTime: int, now: int, id: TimerId)
    requires Agree(entries, timers, []) && id in timers
    requires timers[id].expireTime >= receivedTime || timers[id].Repeats()
    ensures HandleReadSpec(entries, timers, receivedTime, now).entries != []
  {
    var d := HandleReadSpec(entries, timers, receivedTime, now);
    if timers[id].expireTime >= receivedTime {
      HandleReadUntouched(entries, timers, receivedTime, now, id);
    } else {
      HandleReadExecuted(entries, timers, receivedTime, now, id);
    }
    FiledEntry(d.entries, d.timers, [], id);
  }

  /** Some timer remains after handleRead when one is not yet due or repeats. */
  lemma HandleReadLeavesSome(entries: seq<TimerEntry>, timers: map<TimerId, TimerState>, receivedTime: int, now: int)
    requires Agree(entries, timers, [])
    requires exists id :: id in timers && (timers[id].expireTime >= receivedTime || timers[id].Repeats())
    ensures HandleReadSpec(entries, timers, receivedTime, now).entries != []
  {
    var keeper :| keeper in timers && (timers[keeper].expireTime >= receivedTime || timers[keeper].Repeats());
    HandleReadLeavesOne(entries, timers, receivedTime, now, keeper);
  }

  /** No timer remains after handleRead when every timer is due and none repeats. */
  lemma HandleReadEmpties(entries: seq<TimerEntry>, timers: map<TimerId, TimerState>, receivedTime: int, now: int)
    requires Agree(entries, timers, [])
    requires forall id :: id in timers ==> timers[id].expireTime < receivedTime && !timers[id].Repeats()
    ensures HandleReadSpec(entries, timers, receivedTime, now).entries == []
  {
    var d := HandleReadSpec(entries, timers, receivedTime, now);
    forall id | id in timers
      ensures id !in d.timers
    {
      HandleReadExecuted(entries, timers, receivedTime, now, id);
    }
    assert |d.entries| > 0 ==> d.entries[0].id in d.timers;
  }

  /**
   * A timer stays filed after handleRead exactly when some timer is not yet
   * due or repeats; otherwise the set is empty and there is nothing to
   * re-arm the timerfd from.
   */
  lemma HandleReadLeavesIff(entries: seq<TimerEntry>, timers: map<TimerId, TimerState>, receivedTime: int, now: int)
    requires Agree(entries, timers, [])
    ensures HandleReadSpec(entries, timers, receivedTime, now).entries != [] <==>
      exists id :: id in timers && (timers[id].expireTime >= receivedTime || timers[id].Repeats())
  {
    if exists id :: id in timers && (timers[id].expireTime >= receivedTime || timers[id].Repeats()) {
      HandleReadLeavesSome(entries, timers, receivedTime, now);
    } else {
      HandleReadEmpties(entries, timers, receivedTime, now);
    }
  }

  /**
   * The commonest run empties the set: the only timer is a one-shot that
   * fires, and handleRead's final cbegin() then reads the end of an empty set.
   */
  lemma SingleOneShotEmptiesSet()
    ensures var id := TimerId(1, 1);
      var timers := map[id := TimerState(1, 5, 0, true)];
      Agree([TimerEntry(5, id)], timers, []) &&
      HandleReadSpec([TimerEntry(5, id)], timers, 6, 6).entries == []
  {
    var id := TimerId(1, 1);
    var timers := map[id := TimerState(1, 5, 0, true)];
    assert id in Ids([TimerEntry(5, id)]);
    HandleReadEmpties([TimerEntry(5, id)], timers, 6, 6);
  }

  /** handleRead's outcome is the dispatch of the expired prefix with the rest kept. */
  lemma HandleReadIsDispatch(entries: seq<TimerEntry>, timers: map<TimerId, TimerState>, receivedTime: int, now: int,
                             expired: seq<TimerEntry>, rest: seq<TimerEntry>)
    requires Agree(entries, timers, [])
    requires expired == entries[..LowerBound(entries, Pivot(receivedTime))]
    requires rest == entries[LowerBound(entries, Pivot(receivedTime))..]
    requires Agree(rest, timers, expired)
    ensures Dispatch(rest, timers, expired, now) == HandleReadSpec(entries, timers, receivedTime, now)
  {
  }

  /** One turn of handleRead's loop keeps the outcome of the whole dispatch. */
  lemma RunStep(es: seq<TimerEntry>, ms: map<TimerId, TimerState>, rs: seq<TimerId>, expired: seq<TimerEntry>, i: nat, now: int)
    requires i < |expired| && Agree(es, ms, expired[i..])
    ensures var id := expired[i].id;
      Agree(Refile(es, ms, id, now), Fire(ms, id, now), expired[i + 1..])
    ensures var id := expired[i].id;
      var rs' := if ms[id].hasCallback then rs + [id] else rs;
      Resume(rs', Dispatch(Refile(es, ms, id, now), Fire(ms, id, now), expired[i + 1..], now)) ==
        Resume(rs, Dispatch(es, ms, expired[i..], now))
  {
    var pending := expired[i..];
    var id := expired[i].id;
    assert pending[0] == expired[i] && pending[1..] == expired[i + 1..];
    DispatchStep(es, ms, pending, now);
    var ran := if ms[id].hasCallback then [id] else [];
    assert rs + ran == if ms[id].hasCallback then rs + [id] else rs;
    ResumeTwice(rs, ran, Dispatch(Refile(es, ms, id, now), Fire(ms, id, now), expired[i + 1..], now));
  }

  lemma ResumeTwice(rs: seq<TimerId>, ran: seq<TimerId>, x: Dispatched)
    ensures Resume(rs, Resume(ran, x)) == Resume(rs + ran, x)
  {
    assert rs + (ran + x.runs) == (rs + ran) + x.runs;
  }

  /**
   * The loop of handleRead: each expired timer executes in order, running
   * its callback if set, and is filed again if it repeats or erased if not.
   */
  method RunExpired(entries: seq<TimerEntry>, timers: map<TimerId, TimerState>, expired: seq<TimerEntry>, now: int)
    returns (d: Dispatched)
    requires Agree(entries, timers, expired)
    ensures d == Dispatch(entries, timers, expired, now)
  {
    ghost var target := Dispatch(entries, timers, expired, now);
    var es, ms, rs := entries, timers, [];
    var i := 0;
    assert expired[0..] == expired;
    while i < |expired|
      invariant 0 <= i <= |expired|
      invariant Agree(es, ms, expired[i..])
      invariant Resume(rs, Dispatch(es, ms, expired[i..], now)) == target
    {
      var timerId := expired[i].id;
      RunStep(es, ms, rs, expired, i, now);
      if ms[timerId].hasCallback {
        rs := rs + [timerId];
      }
      es, ms := Refile(es, ms, timerId, now), Fire(ms, timerId, now);
      i := i + 1;
    }
    assert expired[i..] == [];
    assert Dispatch(es, ms, [], now) == Dispatched(es, ms, []);
    d := Dispatched(es, ms, rs);
  }

  class TimerManager {
    var entries: seq<TimerEntry>
    var timers: map<TimerId, TimerState>
    /** The expiry each timerfd_settime was asked for, in order. */
    var rearms: seq<int>
    /** The TimerIds whose callbacks ran, in order. */
    var runs: seq<TimerId>
    /** timerfd reads. */
    var fdReads: nat

    ghost predicate Valid()
      reads this
    {
      Agree(entries, timers, [])
    }

    constructor ()
      ensures Valid() && entries == [] && timers == map[] && rearms == [] && runs == [] && fdReads == 0
    {
      entries := [];
      timers := map[];
      rearms := [];
      runs := [];
      fdReads := 0;
    }

    /**
     * addTimerInLoop: the timer is filed under TimerId(timer id, its
     * address); the kernel timer is re-armed iff there was no timer or the
     * new one expires strictly before the earliest.
     */
    method AddTimerInLoop(timer: TimerState, address: nat)
      requires Valid() && address != 0
      requires TimerId(timer.id, address) !in timers
      modifies this
      ensures Valid()
      ensures timers == old(timers)[TimerId(timer.id, address) := timer]
      ensures entries == Insert(old(entries), TimerEntry(timer.expireTime, TimerId(timer.id, address)))
      ensures rearms == old(rearms) +
        (if old(entries) == [] || timer.expireTime < old(entries)[0].time then [timer.expireTime] else [])
      ensures runs == old(runs) && fdReads == old(fdReads)
    {
      var expireTime := timer.expireTime;
      var needToResetTimerFd := entries == [] || expireTime < entries[0].time;
      var timerId := TimerId(timer.id, address);
      AgreeInsert(entries, timers, timerId, timer);
      entries := Insert(entries, TimerEntry(expireTime, timerId));
      timers := timers[timerId := timer];
      if needToResetTimerFd {
        rearms := rearms + [expireTime];
      }
    }

    /** Cancelling the earliest timer re-arms to the next one, which must exist. */
    ghost predicate CancelLeavesOne(timerId: TimerId)
      reads this
      requires Valid()
    {
      (timerId.timer != 0 && timerId in timers && entries[0] == TimerEntry(timers[timerId].expireTime, timerId)) ==>
        |entries| >= 2
    }

    /**
     * cancelTimerInLoop: nothing for a null timer or an unknown one;
     * otherwise the timer leaves both containers, and if it was the earliest
     * the kernel timer is re-armed to the new earliest.
     */
    method CancelTimerInLoop(timerId: TimerId)
      requires Valid() && (timerId in timers ==> |entries| > 0) && CancelLeavesOne(timerId)
      modifies this
      ensures Valid()
      ensures timerId.timer == 0 || timerId !in old(timers) ==>
        timers == old(timers) && entries == old(entries) && rearms == old(rearms)
      ensures timerId.timer != 0 ==> timers == old(timers) - {timerId}
      ensures timerId.timer != 0 && timerId in old(timers) ==>
        var entry := TimerEntry(old(timers)[timerId].expireTime, timerId);
        && entries == Remove(old(entries), entry)
        && rearms == old(rearms) + (if entry == old(entries)[0] then [entries[0].time] else [])
      ensures runs == old(runs) && fdReads == old(fdReads)
    {
      if timerId.timer == 0 {
        return;
      }
      if timerId !in timers {
        return;
      }
      var timerEntry := TimerEntry(timers[timerId].expireTime, timerId);
      AgreeRemove(entries, timers, timerId);
      if timerEntry !in entries {
        assert false;
        return;
      }
      var needToResetTimerFd := timerEntry == entries[0];
      timers := timers - {timerId};
      entries := Remove(entries, timerEntry);
      if needToResetTimerFd {
        rearms := rearms + [entries[0].time];
      }
    }

    /**
     * getExpiredTimers: the entries ordered before (receivedTime, TimerId(0,
     * nullptr)), i.e. those expiring before receivedTime, leave
     * timerEntries_ and are returned in order.
     */
    method GetExpiredTimers(receivedTime: int) returns (expired: seq<TimerEntry>)
      requires Valid()
      modifies this`entries
      ensures expired + entries == old(entries)
      ensures expired == old(entries)[..LowerBound(old(entries), Pivot(receivedTime))]
      ensures entries == old(entries)[LowerBound(old(entries), Pivot(receivedTime))..]
      ensures forall i :: 0 <= i < |expired| ==> expired[i].time < receivedTime
      ensures forall i :: 0 <= i < |entries| ==> entries[i].time >= receivedTime
      ensures Agree(entries, timers, expired)
    {
      var k := LowerBound(entries, Pivot(receivedTime));
      ExpiredSplit(entries, timers, receivedTime, entries[..k], entries[k..]);
      expired := entries[..k];
      entries := entries[k..];
    }

    /**
     * handleRead: after reading the timerfd, every expired timer executes
     * once, in expiry order; repeating ones are filed again and one-shot
     * ones erased. Then the kernel timer is re-armed to the earliest entry,
     * so some timer must remain: one not yet due or one that repeats.
     */
    method HandleRead(receivedTime: int, now: int)
      requires Valid()
      modifies this
      ensures Valid() && fdReads == old(fdReads) + 1
      ensures var d := HandleReadSpec(old(entries), old(timers), receivedTime, now);
        entries == d.entries && timers == d.timers && runs == old(runs) + d.runs
      ensures entries != [] ==> rearms == old(rearms) + [entries[0].time]
      ensures entries == [] ==> rearms == old(rearms)
    {
      fdReads := fdReads + 1;
      DispatchExpired(receivedTime, now);
      if entries != [] {
        rearms := rearms + [entries[0].time];
      }
    }

    /**
     * The part of handleRead between reading the timerfd and re-arming it.
     * A timer stays filed exactly when one was not yet due or repeats.
     */
    method DispatchExpired(receivedTime: int, now: int)
      requires Valid()
      modifies this`entries, this`timers, this`runs
      ensures Valid()
      ensures |entries| > 0 <==>
        exists id :: id in old(timers) && (old(timers)[id].expireTime >= receivedTime || old(timers)[id].Repeats())
      ensures var d := HandleReadSpec(old(entries), old(timers), receivedTime, now);
        entries == d.entries && timers == d.timers && runs == old(runs) + d.runs
    {
      ghost var e0 := entries;
      var expired := GetExpiredTimers(receivedTime);
      var d := RunExpired(entries, timers, expired, now);
      assert d == HandleReadSpec(e0, timers, receivedTime, now) by {
        HandleReadIsDispatch(e0, timers, receivedTime, now, expired, entries);
      }
      HandleReadLeavesIff(e0, timers, receivedTime, now);
      entries, timers, runs := d.entries, d.timers, runs + d.runs;
    }
  }
}
