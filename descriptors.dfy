/**
 * The process's descriptor table as far as the ownership wrappers see it:
 * which descriptors are open, every close(2) issued with its outcome, and
 * (ghost) which wrapper owns each open descriptor.
 */
module Descriptors {
  /** One close(2): the descriptor and whether it was open (success) or not (EBADF). */
  datatype CloseCall = CloseCall(fd: int, ok: bool)

  class FdTable {
    var open: set<int>
    var closes: seq<CloseCall>
    ghost var owner: map<int, object>

    ghost predicate Valid()
      reads this
    {
      (forall fd :: fd in open ==> fd >= 0) && (forall fd :: fd in owner ==> fd in open)
    }

    constructor (open: set<int>)
      requires forall fd :: fd in open ==> fd >= 0
      ensures Valid() && this.open == open && closes == [] && owner == map[]
    {
      this.open := open;
      closes := [];
      owner := map[];
    }

    /** open(2)/socket(2) handing out a descriptor that was not open. */
    method Open(fd: int)
      requires Valid() && fd >= 0 && fd !in open
      modifies this
      ensures Valid() && open == old(open) + {fd} && closes == old(closes) && owner == old(owner)
    {
      open := open + {fd};
    }

    /** close(2): succeeds exactly on an open descriptor, which is then closed and owned by nobody. */
    method Close(fd: int) returns (ok: bool)
      requires Valid()
      modifies this
      ensures Valid() && ok == (fd in old(open))
      ensures open == old(open) - {fd} && owner == old(owner) - {fd}
      ensures closes == old(closes) + [CloseCall(fd, ok)]
    {
      ok := fd in open;
      open := open - {fd};
      owner := owner - {fd};
      closes := closes + [CloseCall(fd, ok)];
    }

    /** The wrapper `o` takes ownership of an open descriptor nobody owns. */
    ghost method Adopt(fd: int, o: object)
      requires Valid() && fd in open && fd !in owner
      modifies this
      ensures Valid() && owner == old(owner)[fd := o] && open == old(open) && closes == old(closes)
    {
      owner := owner[fd := o];
    }

    /** Ownership of fd is handed back to the caller. */
    ghost method Disown(fd: int)
      requires Valid()
      modifies this
      ensures Valid() && owner == old(owner) - {fd} && open == old(open) && closes == old(closes)
    {
      owner := owner - {fd};
    }
  }

  /** Every close in the log succeeded: no descriptor was closed while not open. */
  ghost predicate AllSucceeded(closes: seq<CloseCall>)
  {
    forall i :: 0 <= i < |closes| ==> closes[i].ok
  }

  /**
   * The descriptors still open after replaying the close log, with no opens
   * in between, over the descriptors open at its start.
   */
  function Replay(open: set<int>, closes: seq<CloseCall>): (r: set<int>)
    ensures r <= open
    ensures forall i :: 0 <= i < |closes| ==> closes[i].fd !in r
  {
    if closes == [] then open
    else Replay(open, closes[..|closes| - 1]) - {closes[|closes| - 1].fd}
  }

  /** A log of closes with no intervening opens succeeds at most once per descriptor. */
  ghost predicate Consistent(open: set<int>, closes: seq<CloseCall>)
  {
    forall i :: 0 <= i < |closes| ==> closes[i].ok == (closes[i].fd in Replay(open, closes[..i]))
  }

  /**
   * A successful close is never followed by a second successful close of the
   * same descriptor: in a consistent log, a later close of an already
   * closed descriptor fails.
   */
  lemma {:induction false} AtMostOnce(open: set<int>, closes: seq<CloseCall>, i: int, j: int)
    requires Consistent(open, closes)
    requires 0 <= i < j < |closes| && closes[i].fd == closes[j].fd
    ensures !closes[j].ok
  {
    var before := closes[..j];
    assert before[i] == closes[i];
    assert closes[j].fd !in Replay(open, before);
  }
}
