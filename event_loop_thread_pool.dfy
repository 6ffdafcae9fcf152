/**
 * EventLoopThreadPool (wind/base/EventLoopThreadPool.cpp): the main loop
 * plus threadNum loop threads started once, handed out round-robin. A loop
 * is named by the thread that runs it; starting a thread and obtaining its
 * loop are not part of this model beyond that name.
 */
module EventLoopThreadPool {
  import opened Numerals

  /** An entry of loops_: a null pointer, the main loop, or the loop of a named thread. */
  datatype Loop = NoLoop | MainLoop | ThreadLoop(threadName: string)

  /** The name given to loop thread i of the pool `name`. */
  function ThreadName(name: string, i: nat): string
  {
    name + "_loop_" + Dec(i)
  }

  /** Different threads of one pool get different names. */
  lemma ThreadNamesDistinct(name: string, i: nat, j: nat)
    requires i != j
    ensures ThreadName(name, i) != ThreadName(name, j)
  {
    var p := name + "_loop_";
    if ThreadName(name, i) == ThreadName(name, j) {
      assert Dec(i) == ThreadName(name, i)[|p|..];
      assert Dec(j) == ThreadName(name, j)[|p|..];
      DecimalIsTable();
      ValueOfText(i, 10, DECIMAL);
      ValueOfText(j, 10, DECIMAL);
      assert false;
    }
  }

  /** The index after idx: one step on, back to 0 past the last thread. */
  function Advance(idx: nat, n: nat): (next: nat)
    ensures n > 0 && idx < n ==> next < n
  {
    if idx + 1 >= n then 0 else idx + 1
  }

  /** The loops k successive getNextLoop calls hand out, starting at index idx. */
  function Schedule(loops: seq<Loop>, idx: nat, k: nat): (r: seq<Loop>)
    requires idx < |loops|
    ensures |r| == k
    decreases k
  {
    if k == 0 then [] else [loops[idx]] + Schedule(loops, Advance(idx, |loops|), k - 1)
  }

  /**
   * Round-robin: from index idx the calls hand out loops_[idx..] in order,
   * then start again at loops_[0]. From index 0, n calls hand out every
   * loop once, in order, and the cycle then repeats.
   */
  lemma {:induction false} ScheduleCycles(loops: seq<Loop>, idx: nat, k: nat)
    requires idx < |loops|
    ensures Schedule(loops, idx, |loops| - idx + k) == loops[idx..] + Schedule(loops, 0, k)
    decreases |loops| - idx
  {
    var n := |loops|;
    assert Schedule(loops, idx, n - idx + k) == [loops[idx]] + Schedule(loops, Advance(idx, n), n - idx - 1 + k);
    if idx + 1 == n {
      assert loops[idx..] == [loops[idx]];
    } else {
      ScheduleCycles(loops, idx + 1, k);
      assert loops[idx..] == [loops[idx]] + loops[idx + 1..];
    }
  }

  class EventLoopThreadPool {
    const name: string
    var running: bool
    var currLoopIdx: nat
    var threadNum: nat
    var loops: seq<Loop>
    /** The names of the threads in loopThreads_, "" for an empty slot. */
    var loopThreads: seq<string>

    /**
     * Before start nothing is filled in; after it there is one loop and one
     * thread per count, and the next index is always a valid one.
     */
    ghost predicate Valid()
      reads this
    {
      && (!running ==> loops == [] && loopThreads == [])
      && (running && threadNum > 0 ==> |loops| == threadNum && |loopThreads| == threadNum)
      && (running && threadNum == 0 ==> loops == [] && loopThreads == [])
      && (threadNum > 0 ==> currLoopIdx < threadNum)
      && (threadNum == 0 ==> currLoopIdx == 0)
    }

    /** The constructor; the thread count is the one the pool is given before start. */
    constructor (name: string, threadNum: nat)
      ensures Valid() && this.name == name && this.threadNum == threadNum
      ensures !running && currLoopIdx == 0 && loops == [] && loopThreads == []
    {
      this.name := name;
      this.threadNum := threadNum;
      running := false;
      currLoopIdx := 0;
      loops := [];
      loopThreads := [];
    }

    /**
     * start: a running pool is left alone; otherwise it runs, and with n
     * threads loop thread i is named name_loop_i and loops_[i] is its loop.
     */
    method Start()
      requires Valid()
      modifies this
      ensures Valid() && running && threadNum == old(threadNum) && currLoopIdx == old(currLoopIdx)
      ensures old(running) ==> loops == old(loops) && loopThreads == old(loopThreads)
      ensures !old(running) ==>
        && |loops| == threadNum && |loopThreads| == threadNum
        && forall i :: 0 <= i < threadNum ==>
          loopThreads[i] == ThreadName(name, i) && loops[i] == ThreadLoop(ThreadName(name, i))
    {
      if running {
        return;
      }
      running := true;
      if threadNum == 0 {
        return;
      }
      loopThreads := seq(threadNum, _ => "");
      loops := seq(threadNum, _ => NoLoop);
      var i := 0;
      while i != threadNum
        invariant 0 <= i <= threadNum
        invariant running && threadNum == old(threadNum) && currLoopIdx == old(currLoopIdx)
        invariant |loops| == threadNum && |loopThreads| == threadNum
        invariant forall j :: 0 <= j < i ==>
          loopThreads[j] == ThreadName(name, j) && loops[j] == ThreadLoop(ThreadName(name, j))
      {
        loopThreads := loopThreads[i := ThreadName(name, i)];
        loops := loops[i := ThreadLoop(loopThreads[i])];
        i := i + 1;
      }
    }

    /**
     * getNextLoop: the main loop when the pool is not running or has no
     * threads; otherwise the loop at the current index, which then advances.
     */
    method GetNextLoop() returns (loop: Loop)
      requires Valid()
      modifies this`currLoopIdx
      ensures Valid()
      ensures !running || threadNum == 0 ==> loop == MainLoop && currLoopIdx == old(currLoopIdx)
      ensures running && threadNum > 0 ==>
        && loop == loops[old(currLoopIdx)] && loop == Schedule(loops, old(currLoopIdx), 1)[0]
        && currLoopIdx == Advance(old(currLoopIdx), threadNum)
    {
      if !running || threadNum == 0 {
        return MainLoop;
      }
      loop := loops[currLoopIdx];
      currLoopIdx := currLoopIdx + 1;
      if currLoopIdx >= threadNum {
        currLoopIdx := 0;
      }
    }

    /** The destructor: not running, no threads, no loops. */
    method Destroy()
      modifies this
      ensures Valid() && !running && currLoopIdx == 0 && threadNum == 0
      ensures loops == [] && loopThreads == []
    {
      running := false;
      currLoopIdx := 0;
      threadNum := 0;
      loops := [];
      loopThreads := [];
    }
  }
}
