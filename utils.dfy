/**
 * The descriptor helpers of src/base (src/base/include/Utils.h,
 * src/base/Utils.cpp): closeFd, the ScopedFd wrapper built on it, and
 * AutoFreeBuf. Unlike UniqueFd these make no ownership claim: ScopedFd may be
 * handed any integer, and a close that fails is only reported.
 */
module Utils {
  import opened Wrappers
  import opened Descriptors

  /**
   * closeFd(int &fd): a negative fd is left alone; otherwise it is closed,
   * a failure is only reported, and the caller's variable becomes -1.
   */
  method CloseFd(table: FdTable, fd: int) returns (fdOut: int)
    requires table.Valid()
    modifies table
    ensures table.Valid() && fdOut < 0
    ensures fd < 0 ==> fdOut == fd && table.closes == old(table.closes) && table.open == old(table.open)
    ensures fd >= 0 ==> fdOut == -1 && table.open == old(table.open) - {fd}
    ensures fd >= 0 ==> table.closes == old(table.closes) + [CloseCall(fd, fd in old(table.open))]
  {
    if fd < 0 {
      return fd;
    }
    var ok := table.Close(fd);
    fdOut := -1;
  }

  /** closeFd on its own result changes nothing: the second call is a no-op. */
  method CloseFdTwice(table: FdTable, fd: int) returns (fdOut: int)
    requires table.Valid()
    modifies table
    ensures table.Valid() && fdOut < 0
    ensures table.closes == old(table.closes) + (if fd < 0 then [] else [CloseCall(fd, fd in old(table.open))])
  {
    var once := CloseFd(table, fd);
    fdOut := CloseFd(table, once);
  }

  class ScopedFd {
    var fd: int
    const table: FdTable

    /** explicit ScopedFd(int fd = -1) */
    constructor (table: FdTable, fd: int)
      ensures this.fd == fd && this.table == table
    {
      this.fd := fd;
      this.table := table;
    }

    /** reset(fd = -1): closeFd on the held value, then hold fd. */
    method Reset(newFd: int)
      requires table.Valid()
      modifies this, table
      ensures table.Valid() && fd == newFd
      ensures old(fd) < 0 ==> table.closes == old(table.closes) && table.open == old(table.open)
      ensures old(fd) >= 0 ==> table.open == old(table.open) - {old(fd)}
      ensures old(fd) >= 0 ==> table.closes == old(table.closes) + [CloseCall(old(fd), old(fd) in old(table.open))]
    {
      fd := CloseFd(table, fd);
      fd := newFd;
    }

    /** operator int() */
    function AsInt(): int
      reads this
    {
      fd
    }

    /** The destructor calls reset(). */
    method Destroy()
      requires table.Valid()
      modifies this, table
      ensures table.Valid() && fd == -1
      ensures old(fd) >= 0 ==> table.closes == old(table.closes) + [CloseCall(old(fd), old(fd) in old(table.open))]
      ensures old(fd) < 0 ==> table.closes == old(table.closes)
    {
      Reset(-1);
    }
  }

  /**
   * AutoFreeBuf: a heap array of `size` characters, allocated only for a
   * positive size. `deleted` logs the arrays delete[] has freed.
   */
  class AutoFreeBuf {
    var buf: Option<array<char>>
    var deleted: seq<array<char>>

    constructor (size: int)
      ensures buf.Some? <==> size > 0
      ensures buf.Some? ==> fresh(buf.value) && buf.value.Length == size
      ensures deleted == []
    {
      if size > 0 {
        var a := new char[size];
        buf := Some(a);
      } else {
        buf := None;
      }
      deleted := [];
    }

    /** The destructor deletes the array, if there is one, and forgets it. */
    method Destroy()
      modifies this
      ensures buf == None
      ensures deleted == old(deleted) + (if old(buf).Some? then [old(buf).value] else [])
    {
      if buf.Some? {
        deleted := deleted + [buf.value];
        buf := None;
      }
    }
  }

  /**
   * One AutoFreeBuf from construction to destruction: the array allocated
   * for a positive size is deleted exactly once, and for any other size
   * nothing is allocated or deleted.
   */
  method AutoFreeBufLifetime(size: int) returns (deleted: seq<array<char>>)
    ensures size > 0 <==> |deleted| == 1
    ensures size > 0 ==> deleted[0].Length == size
    ensures size <= 0 ==> deleted == []
  {
    var b := new AutoFreeBuf(size);
    b.Destroy();
    deleted := b.deleted;
  }
}
