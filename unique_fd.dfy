/**
 * UniqueFdImpl (wind/base/UniqueFd.h), and the identical older UniqueFd
 * (wind/UniqueFd.h): a move-only owner of one descriptor that closes it on
 * reset and destruction. The closer is close(2) on the descriptor table.
 */
module UniqueFd {
  import opened Descriptors

  /** INVALID_FD(fd): negative descriptors are not descriptors. */
  predicate Invalid(fd: int)
  {
    fd < 0
  }

  /** INVALID_FD(): the value a wrapper holds when it owns nothing. */
  const INVALID: int := -1

  lemma InvalidSentinel()
    ensures Invalid(INVALID) && forall fd :: !Invalid(fd) <==> fd >= 0
  {
  }

  class UniqueFd {
    var fd: int
    const table: FdTable

    /** A held descriptor is open and owned by this wrapper alone. */
    ghost predicate Valid()
      reads this, table
    {
      table.Valid() && (!Invalid(fd) ==> fd in table.owner && table.owner[fd] == this)
    }

    /** The default constructor holds INVALID_FD(). */
    constructor Empty(table: FdTable)
      requires table.Valid()
      ensures Valid() && fd == INVALID && this.table == table
    {
      fd := INVALID;
      this.table := table;
    }

    /** explicit UniqueFdImpl(int fd): takes ownership of fd. */
    constructor (table: FdTable, fd: int)
      requires table.Valid() && (Invalid(fd) || (fd in table.open && fd !in table.owner))
      modifies table
      ensures Valid() && this.fd == fd && this.table == table
      ensures table.owner == if Invalid(fd) then old(table.owner) else old(table.owner)[fd := this]
      ensures table.open == old(table.open) && table.closes == old(table.closes)
    {
      this.fd := fd;
      this.table := table;
      new;
      if !Invalid(fd) {
        table.Adopt(fd, this);
      }
    }

    /** The move constructor: fd_(other.release()). */
    constructor MoveFrom(other: UniqueFd)
      requires other.Valid()
      modifies other, other.table
      ensures Valid() && table == other.table && fd == old(other.fd) && other.fd == INVALID
      ensures table.open == old(other.table.open) && table.closes == old(other.table.closes)
      ensures var kept := old(other.table.owner) - {fd};
        table.owner == if Invalid(fd) then kept else kept[fd := this]
    {
      var released := other.Release();
      fd := released;
      table := other.table;
      new;
      if !Invalid(fd) {
        table.Adopt(fd, this);
      }
    }

    function Get(): int
      reads this
    {
      fd
    }

    /**
     * close(): closes the held descriptor when it is valid; fd_ keeps its
     * value. The close always succeeds, because the descriptor is owned.
     */
    method Close()
      requires Valid()
      modifies table
      ensures table.Valid() && fd == old(fd)
      ensures table.closes == old(table.closes) + (if Invalid(fd) then [] else [CloseCall(fd, true)])
      ensures table.open == old(table.open) - {fd} && table.owner == old(table.owner) - {fd}
    {
      if !Invalid(fd) {
        var ok := table.Close(fd);
      }
    }

    /** reset(fd): closes what is held, then holds fd. */
    method Reset(newFd: int)
      requires Valid() && (Invalid(newFd) || (newFd in table.open && newFd !in table.owner))
      modifies this, table
      ensures Valid() && fd == newFd
      ensures table.closes == old(table.closes) + (if Invalid(old(fd)) then [] else [CloseCall(old(fd), true)])
      ensures table.open == old(table.open) - {old(fd)}
      ensures var kept := old(table.owner) - {old(fd)};
        table.owner == if Invalid(newFd) then kept else kept[newFd := this]
    {
      Close();
      fd := newFd;
      if !Invalid(newFd) {
        table.Adopt(newFd, this);
      }
    }

    /** release(): hands the descriptor back unclosed and holds INVALID_FD(). */
    method Release() returns (released: int)
      requires Valid()
      modifies this, table
      ensures Valid() && released == old(fd) && fd == INVALID
      ensures table.open == old(table.open) && table.closes == old(table.closes)
      ensures table.owner == old(table.owner) - {released}
      ensures !Invalid(released) ==> released in table.open && released !in table.owner
    {
      released := fd;
      fd := INVALID;
      table.Disown(released);
    }

    /**
     * Move assignment is reset(other.release()): the old descriptor is
     * closed and the source's taken over. Moving onto itself closes nothing.
     */
    method MoveAssign(other: UniqueFd)
      requires Valid() && other.Valid() && other.table == table
      modifies this, other, table
      ensures Valid() && fd == old(other.fd)
      ensures other != this ==> other.fd == INVALID
      ensures other == this ==> table.closes == old(table.closes) && table.open == old(table.open)
      ensures other != this ==>
        table.closes == old(table.closes) + (if Invalid(old(fd)) then [] else [CloseCall(old(fd), true)])
    {
      var released := other.Release();
      Reset(released);
    }

    /** The destructor is reset(): the held descriptor is closed once. */
    method Destroy()
      requires Valid()
      modifies this, table
      ensures Valid() && fd == INVALID
      ensures table.closes == old(table.closes) + (if Invalid(old(fd)) then [] else [CloseCall(old(fd), true)])
      ensures old(fd) !in table.open && old(fd) !in table.owner
    {
      Reset(INVALID);
    }
  }

  /** Two live wrappers on one table never hold the same descriptor. */
  lemma Exclusive(a: UniqueFd, b: UniqueFd)
    requires a.Valid() && b.Valid() && a.table == b.table && a != b && !Invalid(a.fd)
    ensures a.fd != b.fd
  {
  }
}
