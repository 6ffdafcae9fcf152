/**
 * The ordered set timerEntries_ of wind/base/TimerManager.cpp: pairs of
 * (expiry time, TimerId) held as a strictly increasing sequence. The pairs
 * compare by time and then by TimerId; the TimerId comparison is the
 * lexicographic one (TimerId.LexLess), the order the ordered set needs.
 */
module TimerEntries {
  import opened TimerId

  datatype TimerEntry = TimerEntry(time: int, id: TimerId)

  /** std::pair's operator< over (time, TimerId). */
  predicate Before(a: TimerEntry, b: TimerEntry)
  {
    a.time < b.time || (a.time == b.time && LexLess(a.id, b.id))
  }

  ghost predicate Sorted(s: seq<TimerEntry>)
  {
    forall i, j :: 0 <= i < j < |s| ==> Before(s[i], s[j])
  }

  lemma BeforeTransitive(a: TimerEntry, b: TimerEntry, c: TimerEntry)
    ensures Before(a, b) && Before(b, c) ==> Before(a, c)
    ensures !Before(a, a)
  {
    LexLessStrictTotal(a.id, b.id, c.id);
  }

  /** std::set::insert: the entry is added unless already present, and the order is kept. */
  function Insert(s: seq<TimerEntry>, e: TimerEntry): (r: seq<TimerEntry>)
    requires Sorted(s)
    ensures Sorted(r)
    ensures forall x :: x in r <==> x in s || x == e
    ensures |r| > 0 && (s != [] ==> r[0] == (if Before(e, s[0]) then e else s[0]))
    ensures s == [] ==> r == [e]
    decreases |s|
  {
    if s == [] then [e]
    else if e == s[0] then s
    else if Before(e, s[0]) then
      assert forall j :: 0 <= j < |s| ==> Before(e, s[j]) by {
        forall j | 0 <= j < |s| ensures Before(e, s[j]) {
          BeforeTransitive(e, s[0], s[j]);
        }
      }
      [e] + s
    else
      var rest := Insert(s[1..], e);
      assert Before(s[0], e) by {
        LexLessStrictTotal(e.id, s[0].id, s[0].id);
      }
      assert forall x :: x in rest ==> Before(s[0], x) by {
        forall x | x in rest ensures Before(s[0], x) {
          if x != e {
            var j :| 1 <= j < |s| && s[j] == x;
          }
        }
      }
      [s[0]] + rest
  }

  /** std::set::erase of one entry. */
  function Remove(s: seq<TimerEntry>, e: TimerEntry): (r: seq<TimerEntry>)
    requires Sorted(s)
    ensures Sorted(r)
    ensures forall x :: x in r <==> x in s && x != e
    ensures |r| == if e in s then |s| - 1 else |s|
    ensures r != [] && s[0] != e ==> r[0] == s[0]
    decreases |s|
  {
    if s == [] then []
    else
      var rest := Remove(s[1..], e);
      if s[0] == e then rest
      else
        assert forall x :: x in rest ==> Before(s[0], x) by {
          forall x | x in rest ensures Before(s[0], x) {
            var j :| 1 <= j < |s| && s[j] == x;
          }
        }
        [s[0]] + rest
  }

  /** The pivot of getExpiredTimers: (receivedTime, TimerId(0, nullptr)). */
  function Pivot(t: int): TimerEntry
  {
    TimerEntry(t, TimerId(0, 0))
  }

  /** An entry is ordered before the pivot exactly when its time is earlier. */
  lemma BeforePivot(e: TimerEntry, t: int)
    ensures Before(e, Pivot(t)) <==> e.time < t
  {
  }

  /** std::set::lower_bound(pivot): the first entry not ordered before the pivot. */
  function LowerBound(s: seq<TimerEntry>, pivot: TimerEntry): (k: nat)
    ensures k <= |s|
    ensures forall i :: 0 <= i < k ==> Before(s[i], pivot)
    ensures k < |s| ==> !Before(s[k], pivot)
  {
    if s == [] || !Before(s[0], pivot) then 0 else 1 + LowerBound(s[1..], pivot)
  }

  /** In a sorted sequence nothing after the lower bound is before the pivot. */
  lemma {:induction false} LowerBoundSplits(s: seq<TimerEntry>, t: int)
    requires Sorted(s)
    ensures var k := LowerBound(s, Pivot(t));
      (forall i :: 0 <= i < k ==> s[i].time < t) && (forall i :: k <= i < |s| ==> s[i].time >= t)
  {
    var k := LowerBound(s, Pivot(t));
    forall i | 0 <= i < k
      ensures s[i].time < t
    {
      BeforePivot(s[i], t);
    }
    forall i | k <= i < |s|
      ensures s[i].time >= t
    {
      BeforePivot(s[k], t);
      if i > k {
        assert Before(s[k], s[i]);
      }
    }
  }

  /** Two entries of a sorted sequence that share a time and an id are the same entry. */
  lemma SortedDistinct(s: seq<TimerEntry>, i: int, j: int)
    requires Sorted(s) && 0 <= i < |s| && 0 <= j < |s| && s[i] == s[j]
    ensures i == j
  {
    if i < j {
      BeforeTransitive(s[i], s[i], s[i]);
    } else if j < i {
      BeforeTransitive(s[j], s[j], s[j]);
    }
  }
}
