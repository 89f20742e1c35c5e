// The system-call dispatcher: a `match` over the call number, of which only
// read, write and exit are wired to handlers.

module Syscall {
  import opened Words

  // Call numbers (the Linux x86-64 numbering).
  const SYS_READ: u64 := 0
  const SYS_WRITE: u64 := 1
  const SYS_OPEN: u64 := 2
  const SYS_CLOSE: u64 := 3
  const SYS_EXIT: u64 := 60
  const SYS_FORK: u64 := 57
  const SYS_EXECVE: u64 := 59

  const I64_MIN: int := -0x8000_0000_0000_0000
  const I64_MAX: int := 0x7FFF_FFFF_FFFF_FFFF

  /** What a call does: return an `isize`, or never return. */
  datatype Outcome = Returned(value: int) | Diverges

  /** `x as isize` for a `usize`: the two's-complement reinterpretation of the 64 bits. */
  function AsIsize(x: u64): (r: int)
    ensures I64_MIN <= r <= I64_MAX
    ensures r % U64_LIMIT == x
    ensures 0 <= r <==> x <= I64_MAX
  {
    if x <= I64_MAX then x else x - U64_LIMIT
  }

  /** The reinterpretation is one-to-one: distinct counts give distinct results. */
  lemma AsIsizeInjective(x: u64, y: u64)
    requires AsIsize(x) == AsIsize(y)
    ensures x == y
  {
    assert AsIsize(x) % U64_LIMIT == x && AsIsize(y) % U64_LIMIT == y;
  }

  /** `sys_read`: not implemented, every call fails. */
  function SysRead(fd: u64, buf: u64, count: u64): (r: Outcome)
    ensures r == Returned(-1)
  {
    Returned(-1)
  }

  /**
   * `sys_write`: on stdout or stderr the bytes go to the log (when they are UTF-8) and
   * the count is returned; on any other descriptor the call fails.
   */
  function SysWrite(fd: u64, buf: u64, count: u64): (r: Outcome)
    ensures r.Returned?
    ensures fd != 1 && fd != 2 ==> r.value == -1
    ensures fd == 1 || fd == 2 ==> r.value % U64_LIMIT == count
    ensures r.value >= 0 ==> (fd == 1 || fd == 2) && r.value == count
  {
    if fd == 1 || fd == 2 then Returned(AsIsize(count)) else Returned(-1)
  }

  /** `sys_exit`: logs the code and spins forever. */
  function SysExit(code: u64): (r: Outcome)
    ensures r.Diverges?
  {
    Diverges
  }

  /** `dispatch(nr, arg0, arg1, arg2)`. */
  function Dispatch(nr: u64, arg0: u64, arg1: u64, arg2: u64): (r: Outcome)
    ensures r.Diverges? <==> nr == SYS_EXIT
    ensures nr == SYS_WRITE ==> r == SysWrite(arg0, arg1, arg2)
    ensures nr != SYS_WRITE && nr != SYS_EXIT ==> r == Returned(-1)
  {
    match nr
    case 0 => SysRead(arg0, arg1, arg2)
    case 1 => SysWrite(arg0, arg1, arg2)
    case 60 => SysExit(arg0)
    case _ => Returned(-1)
  }

  /**
   * Only exit diverges; every number other than write fails with -1, the declared
   * open, close, fork and execve included.
   */
  lemma DispatchFails(nr: u64, arg0: u64, arg1: u64, arg2: u64)
    ensures Dispatch(nr, arg0, arg1, arg2).Diverges? <==> nr == SYS_EXIT
    ensures nr != SYS_WRITE && nr != SYS_EXIT ==> Dispatch(nr, arg0, arg1, arg2) == Returned(-1)
    ensures nr in {SYS_OPEN, SYS_CLOSE, SYS_FORK, SYS_EXECVE} ==> Dispatch(nr, arg0, arg1, arg2) == Returned(-1)
  {
  }

  /**
   * `write` to stdout or stderr returns the count as an `isize` whatever the bytes are;
   * to any other descriptor it fails.
   */
  lemma DispatchWrite(fd: u64, buf: u64, count: u64)
    ensures fd == 1 || fd == 2 ==> Dispatch(SYS_WRITE, fd, buf, count) == Returned(AsIsize(count))
    ensures fd != 1 && fd != 2 ==> Dispatch(SYS_WRITE, fd, buf, count) == Returned(-1)
  {
  }

  /**
   * A call returns something other than -1 exactly when it is a write to stdout or
   * stderr of a count other than 2^64 - 1 (which the conversion turns into -1).
   */
  lemma DispatchSucceeds(nr: u64, arg0: u64, arg1: u64, arg2: u64)
    ensures (Dispatch(nr, arg0, arg1, arg2).Returned? && Dispatch(nr, arg0, arg1, arg2).value != -1)
            <==> nr == SYS_WRITE && (arg0 == 1 || arg0 == 2) && arg2 != U64_LIMIT - 1
  {
    if nr == SYS_WRITE && (arg0 == 1 || arg0 == 2) && AsIsize(arg2) == -1 {
      assert AsIsize(U64_LIMIT - 1) == -1;
      AsIsizeInjective(arg2, U64_LIMIT - 1);
    }
  }

  /** A write returns a non-negative count exactly when the count fits in an `isize`, and then it is the count. */
  lemma WriteCountFits(fd: u64, buf: u64, count: u64)
    requires fd == 1 || fd == 2
    ensures Dispatch(SYS_WRITE, fd, buf, count).value >= 0 <==> count <= I64_MAX
    ensures count <= I64_MAX ==> Dispatch(SYS_WRITE, fd, buf, count).value == count
  {
  }
}
