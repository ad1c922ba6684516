/**
 The parent's descriptor ledger during a spawn: stdio resolution (src/stdio.rs), the auto-closing pipe ends
 (src/process/fd.rs), and every return path of `run_prepared` (src/process/protocol.rs) with the drops that Rust
 inserts. Descriptor numbers may be reused by the kernel, so closing a descriptor that is not open is a double close.
 */
module DescriptorLedger {
  import opened Wrappers

  datatype Stdio = Inherit | Null | Piped | Owned(fd: nat)

  datatype StreamRole = Stdin | Stdout | Stderr

  /** The process's open descriptors, the pipes it made as (read end, write end), and how many needed steps failed. */
  class FdTable {
    var open: set<nat>
    var pipes: seq<(nat, nat)>
    var failed: nat

    /** Any step whose outcome the kernel or the child decides. */
    method Attempt() returns (ok: bool)
      modifies this`failed
      ensures failed == old(failed) + if ok then 0 else 1
    {
      ok := *;
      if !ok {
        failed := failed + 1;
      }
    }

    /** `open(2)`: a number that was not in use, or failure. */
    method Open() returns (fd: Option<nat>)
      modifies this`open, this`failed
      ensures failed == old(failed) + if fd.None? then 1 else 0
      ensures fd.None? ==> open == old(open)
      ensures fd.Some? ==> fd.value !in old(open) && open == old(open) + {fd.value}
    {
      var n: int := *;
      if n >= 0 && n !in open {
        open := open + {n};
        fd := Some(n);
      } else {
        failed := failed + 1;
        fd := None;
      }
    }

    /** An open that the caller can do without: nothing fails when it does not succeed. */
    method TryOpen() returns (fd: Option<nat>)
      modifies this`open
      ensures fd.None? ==> open == old(open)
      ensures fd.Some? ==> fd.value !in old(open) && open == old(open) + {fd.value}
    {
      var n: int := *;
      if n >= 0 && n !in open {
        open := open + {n};
        fd := Some(n);
      } else {
        fd := None;
      }
    }

    /** `pipe(2)`: two new descriptors or none. */
    method OpenPipe() returns (ends: Option<(nat, nat)>)
      modifies this
      ensures failed == old(failed) + if ends.None? then 1 else 0
      ensures ends.None? ==> open == old(open) && pipes == old(pipes)
      ensures ends.Some? ==> ends.value.0 != ends.value.1 && {ends.value.0, ends.value.1} !! old(open)
                             && open == old(open) + {ends.value.0, ends.value.1}
                             && pipes == old(pipes) + [ends.value]
    {
      var r, w: int := *, *;
      if r >= 0 && w >= 0 && r != w && r !in open && w !in open {
        open := open + {r, w};
        pipes := pipes + [(r, w)];
        ends := Some((r, w));
      } else {
        failed := failed + 1;
        ends := None;
      }
    }

    /** `close(2)`: the caller must hold the descriptor open. Linux releases it even when it reports an error. */
    method Close(fd: nat)
      requires fd in open
      modifies this`open
      ensures open == old(open) - {fd}
    {
      open := open - {fd};
    }
  }

  datatype ByteWritten = Released | WriteFailed | CloseFailed

  /** `AutoCloseFd`: closes once, on `close` or on drop. */
  class AutoCloseFd {
    var fd: int

    ghost function Owns(): set<nat>
      reads this
    {
      if fd >= 0 then {fd} else {}
    }

    constructor (fd: nat)
      ensures this.fd == fd
    {
      this.fd := fd;
    }

    /** `close`, also the body of `drop`. */
    method Close(t: FdTable)
      requires Owns() <= t.open
      modifies this, t`open
      ensures Owns() == {} && t.open == old(t.open) - old(Owns())
    {
      if fd >= 0 {
        var f := fd;
        fd := -1;
        t.Close(f);
      }
    }

    /** `write_byte_and_close`: a failed write leaves the descriptor to the caller, a failed close does not. */
    method WriteByteAndClose(t: FdTable) returns (r: ByteWritten)
      requires Owns() <= t.open
      modifies this, t`open, t`failed
      ensures r.WriteFailed? ==> Owns() == old(Owns()) && t.open == old(t.open)
      ensures !r.WriteFailed? ==> Owns() == {} && t.open == old(t.open) - old(Owns())
      ensures t.failed == old(t.failed) + if r.Released? then 0 else 1
    {
      var written := t.Attempt();
      if !written {
        return WriteFailed;
      }
      Close(t);
      var closed := t.Attempt();
      r := if closed then Released else CloseFailed;
    }
  }

  /** The descriptor a stdio setting brings along from the caller. */
  function Brought(stdio: Stdio): set<nat> {
    if stdio.Owned? then {stdio.fd} else {}
  }

  /** `resolve` refuses an owned descriptor 0, 1 or 2. */
  predicate Refused(stdio: Stdio) {
    stdio.Owned? && stdio.fd <= 2
  }

  /** Dropping an unused setting closes an owned descriptor. */
  method DropStdio(t: FdTable, stdio: Stdio)
    requires Brought(stdio) <= t.open
    modifies t`open
    ensures t.open == old(t.open) - Brought(stdio)
  {
    if stdio.Owned? {
      t.Close(stdio.fd);
    }
  }

  function PipesFor(stdio: Stdio): nat {
    if stdio.Piped? then 1 else 0
  }

  /** The end of pipe `i` that the parent talks through: it writes to stdin and reads from the others. */
  function ParentEnd(stdio: Stdio, role: StreamRole, pipes: seq<(nat, nat)>, i: nat): Option<nat>
    requires i + PipesFor(stdio) <= |pipes|
  {
    if stdio.Piped? then Some(if role.Stdin? then pipes[i].1 else pipes[i].0) else None
  }

  function ChildEnd(role: StreamRole, pipes: seq<(nat, nat)>, i: nat): Option<nat>
    requires i < |pipes|
  {
    Some(if role.Stdin? then pipes[i].0 else pipes[i].1)
  }

  /** `StdioSlot`: the child's descriptor with its close flag, and the parent's end of a pipe. */
  class StdioSlot {
    var childFd: Option<nat>
    var parentFd: Option<nat>
    var closeInParent: bool
    var closeInChild: Option<nat>

    ghost function ChildSide(): set<nat>
      reads this
    {
      if closeInParent && childFd.Some? then {childFd.value} else {}
    }

    ghost function ParentSide(): set<nat>
      reads this
    {
      if parentFd.Some? then {parentFd.value} else {}
    }

    /** What the slot still has to close. */
    ghost function Owns(): set<nat>
      reads this
    {
      ChildSide() + ParentSide()
    }

    constructor (childFd: Option<nat>, parentFd: Option<nat>, closeInParent: bool, closeInChild: Option<nat>)
      ensures this.childFd == childFd && this.parentFd == parentFd
      ensures this.closeInParent == closeInParent && this.closeInChild == closeInChild
    {
      this.childFd, this.parentFd := childFd, parentFd;
      this.closeInParent, this.closeInChild := closeInParent, closeInChild;
    }

    /**
     `resolve`: the slot owns exactly what was opened and brought, its two sides are different descriptors, and a pipe
     tells the child to close the parent's end. The parent keeps the write end of a stdin pipe and the read end of an
     output pipe; a stream that is not piped has no parent's end. On an error everything brought is closed: an owned
     descriptor 0, 1 or 2 is refused and, being dropped, closed all the same.
     */
    static method Resolve(t: FdTable, stdio: Stdio, role: StreamRole) returns (slot: StdioSlot?)
      requires Brought(stdio) <= t.open
      modifies t
      ensures slot == null ==> t.open == old(t.open) - Brought(stdio)
      ensures slot != null ==> fresh(slot) && slot.ChildSide() !! slot.ParentSide() && slot.Owns() <= t.open
      ensures slot != null ==> slot.Owns() !! (old(t.open) - Brought(stdio))
                               && t.open == (old(t.open) - Brought(stdio)) + slot.Owns()
      ensures slot != null ==> slot.closeInChild == slot.parentFd && t.failed == old(t.failed)
      ensures t.failed >= old(t.failed) && (slot == null <==> Refused(stdio) || t.failed > old(t.failed))
      ensures old(t.pipes) <= t.pipes && (slot != null ==> |t.pipes| == |old(t.pipes)| + PipesFor(stdio))
      ensures slot != null ==> slot.parentFd == ParentEnd(stdio, role, t.pipes, |old(t.pipes)|)
      ensures slot != null && stdio.Piped? ==> slot.childFd == ChildEnd(role, t.pipes, |old(t.pipes)|)
      ensures slot != null && stdio.Inherit? ==> slot.childFd == None
      ensures slot != null && stdio.Owned? ==> slot.childFd == Some(stdio.fd)
      ensures slot != null && stdio.Null? ==> slot.childFd.Some? && slot.childFd.value !in old(t.open)
      ensures slot != null ==> slot.closeInParent == !stdio.Inherit?
    {
      match stdio
      case Inherit =>
        slot := new StdioSlot(None, None, false, None);
      case Null =>
        var fd := t.Open();
        if fd.None? {
          return null;
        }
        slot := new StdioSlot(fd, None, true, None);
      case Piped =>
        var ends := t.OpenPipe();
        if ends.None? {
          return null;
        }
        var (r, w) := ends.value;
        if role.Stdin? {
          slot := new StdioSlot(Some(r), Some(w), true, Some(w));
        } else {
          slot := new StdioSlot(Some(w), Some(r), true, Some(r));
        }
      case Owned(fd) =>
        if fd <= 2 {
          DropStdio(t, stdio);
          return null;
        }
        slot := new StdioSlot(Some(fd), None, true, None);
    }

    /** `close_child_fd_in_parent`. */
    method CloseChildFdInParent(t: FdTable)
      requires ChildSide() <= t.open
      modifies this, t`open
      ensures t.open == old(t.open) - old(ChildSide())
      ensures ChildSide() == {} && parentFd == old(parentFd)
    {
      if closeInParent {
        if childFd.Some? {
          t.Close(childFd.value);
        }
        closeInParent := false;
        childFd := None;
      }
    }

    /** `take_parent_fd`: the descriptor leaves the slot without being closed. */
    method TakeParentFd() returns (fd: Option<nat>)
      modifies this
      ensures fd == old(parentFd) && ParentSide() == {} && ChildSide() == old(ChildSide())
    {
      fd := parentFd;
      parentFd := None;
    }

    /** `drop`, followed by the drop of the owned parent end. */
    method Drop(t: FdTable)
      requires Owns() <= t.open && ChildSide() !! ParentSide()
      modifies this, t`open
      ensures Owns() == {} && t.open == old(t.open) - old(Owns())
    {
      if closeInParent {
        if childFd.Some? {
          t.Close(childFd.value);
        }
      }
      if parentFd.Some? {
        t.Close(parentFd.value);
      }
      childFd, parentFd := None, None;
    }
  }

  // ----- the return paths of run_prepared -----

  /** `all` is `rest` plus `mine`, without overlap. */
  ghost predicate Split(all: set<nat>, rest: set<nat>, mine: set<nat>) {
    all == rest + mine && rest !! mine
  }

  lemma {:induction false} SplitShrinks(all: set<nat>, rest: set<nat>, mine: set<nat>, gone: set<nat>)
    requires Split(all, rest, mine) && gone <= rest
    ensures Split(all - gone, rest - gone, mine)
  {
  }

  lemma {:induction false} SplitGrows(all: set<nat>, rest: set<nat>, mine: set<nat>, more: set<nat>)
    requires Split(all, rest, mine) && more !! all
    ensures Split(all + more, rest + more, mine)
  {
  }

  /** Three slots that own different descriptors. */
  ghost predicate SlotsApart(s0: StdioSlot, s1: StdioSlot, s2: StdioSlot)
    reads s0, s1, s2
  {
    && s0 != s1 && s1 != s2 && s0 != s2
    && s0.ChildSide() !! s0.ParentSide() && s1.ChildSide() !! s1.ParentSide() && s2.ChildSide() !! s2.ParentSide()
    && s0.Owns() !! s1.Owns() && s0.Owns() !! s2.Owns() && s1.Owns() !! s2.Owns()
  }

  ghost function SlotsOwn(s0: StdioSlot, s1: StdioSlot, s2: StdioSlot): set<nat>
    reads s0, s1, s2
  {
    s0.Owns() + s1.Owns() + s2.Owns()
  }

  method DropSlots(t: FdTable, s0: StdioSlot, s1: StdioSlot, s2: StdioSlot, ghost rest: set<nat>)
    requires SlotsApart(s0, s1, s2) && Split(t.open, rest, SlotsOwn(s0, s1, s2))
    modifies t`open, s0, s1, s2
    ensures t.open == rest
  {
    s2.Drop(t);
    s1.Drop(t);
    s0.Drop(t);
  }

  method CloseChildSides(t: FdTable, s0: StdioSlot, s1: StdioSlot, s2: StdioSlot, ghost rest: set<nat>)
    requires SlotsApart(s0, s1, s2) && Split(t.open, rest, SlotsOwn(s0, s1, s2))
    modifies t`open, s0, s1, s2
    ensures SlotsApart(s0, s1, s2) && Split(t.open, rest, SlotsOwn(s0, s1, s2))
    ensures s0.ChildSide() == {} && s1.ChildSide() == {} && s2.ChildSide() == {}
    ensures s0.parentFd == old(s0.parentFd) && s1.parentFd == old(s1.parentFd) && s2.parentFd == old(s2.parentFd)
  {
    s0.CloseChildFdInParent(t);
    s1.CloseChildFdInParent(t);
    s2.CloseChildFdInParent(t);
  }

  /** The three descriptors are the parent's ends of the pipes made for the piped streams, in stream order. */
  ghost predicate HandedOver(f0: Option<nat>, f1: Option<nat>, f2: Option<nat>, stdin: Stdio, stdout: Stdio,
                             stderr: Stdio, pipes: seq<(nat, nat)>, from: nat)
  {
    && from + PipesFor(stdin) + PipesFor(stdout) + PipesFor(stderr) <= |pipes|
    && f0 == ParentEnd(stdin, Stdin, pipes, from)
    && f1 == ParentEnd(stdout, Stdout, pipes, from + PipesFor(stdin))
    && f2 == ParentEnd(stderr, Stderr, pipes, from + PipesFor(stdin) + PipesFor(stdout))
  }

  /** Later pipes do not change which ends these are. */
  lemma {:induction false} ParentEndStays(stdio: Stdio, role: StreamRole, pipes: seq<(nat, nat)>, more: seq<(nat, nat)>,
                                          i: nat)
    requires i + PipesFor(stdio) <= |pipes| && pipes <= more
    ensures ParentEnd(stdio, role, more, i) == ParentEnd(stdio, role, pipes, i)
  {
  }

  lemma {:induction false} HandedOverStays(f0: Option<nat>, f1: Option<nat>, f2: Option<nat>, stdin: Stdio,
                                           stdout: Stdio, stderr: Stdio, pipes: seq<(nat, nat)>,
                                           more: seq<(nat, nat)>, from: nat)
    requires HandedOver(f0, f1, f2, stdin, stdout, stderr, pipes, from) && pipes <= more
    ensures HandedOver(f0, f1, f2, stdin, stdout, stderr, more, from)
  {
    ParentEndStays(stdin, Stdin, pipes, more, from);
    ParentEndStays(stdout, Stdout, pipes, more, from + PipesFor(stdin));
    ParentEndStays(stderr, Stderr, pipes, more, from + PipesFor(stdin) + PipesFor(stdout));
  }

  /** No two settings bring the same descriptor. */
  ghost predicate BroughtApart(stdin: Stdio, stdout: Stdio, stderr: Stdio) {
    && Brought(stdin) !! Brought(stdout) && Brought(stdin) !! Brought(stderr)
    && Brought(stdout) !! Brought(stderr)
  }

  /** Step 2: resolve the three streams; an error drops what was resolved and what was still to be resolved. */
  method ResolveAll(t: FdTable, stdin: Stdio, stdout: Stdio, stderr: Stdio, ghost rest: set<nat>)
    returns (s0: StdioSlot?, s1: StdioSlot?, s2: StdioSlot?)
    requires BroughtApart(stdin, stdout, stderr)
    requires Split(t.open, rest, Brought(stdin) + Brought(stdout) + Brought(stderr))
    modifies t
    ensures s2 == null ==> t.open == rest
    ensures s2 == null <==> Refused(stdin) || Refused(stdout) || Refused(stderr) || t.failed > old(t.failed)
    ensures old(t.pipes) <= t.pipes && t.failed >= old(t.failed)
    ensures s2 != null ==> s0 != null && s1 != null && fresh(s0) && fresh(s1) && fresh(s2)
    ensures s2 != null ==> SlotsApart(s0, s1, s2) && Split(t.open, rest, SlotsOwn(s0, s1, s2))
    ensures s2 != null ==> HandedOver(s0.parentFd, s1.parentFd, s2.parentFd, stdin, stdout, stderr, t.pipes,
                                      |old(t.pipes)|)
  {
    s1, s2 := null, null;
    assert t.open - Brought(stdin) == rest + Brought(stdout) + Brought(stderr);
    s0 := StdioSlot.Resolve(t, stdin, Stdin);
    if s0 == null {
      DropStdio(t, stdout);
      DropStdio(t, stderr);
      return;
    }
    assert Split(t.open, rest + Brought(stdout) + Brought(stderr), s0.Owns());
    ghost var pipes := t.pipes;
    s1, s2 := ResolveRest(t, s0, stdout, stderr, rest);
    if s2 == null {
      s0.Drop(t);
    } else {
      ParentEndStays(stdin, Stdin, pipes, t.pipes, |old(t.pipes)|);
    }
  }

  method ResolveRest(t: FdTable, s0: StdioSlot, stdout: Stdio, stderr: Stdio, ghost rest: set<nat>)
    returns (s1: StdioSlot?, s2: StdioSlot?)
    requires s0.ChildSide() !! s0.ParentSide() && Brought(stdout) !! Brought(stderr)
    requires rest !! (Brought(stdout) + Brought(stderr))
    requires Split(t.open, rest + Brought(stdout) + Brought(stderr), s0.Owns())
    modifies t
    ensures s2 == null ==> Split(t.open, rest, s0.Owns())
    ensures s2 == null <==> Refused(stdout) || Refused(stderr) || t.failed > old(t.failed)
    ensures old(t.pipes) <= t.pipes && t.failed >= old(t.failed)
    ensures s2 != null ==> s1 != null && fresh(s1) && fresh(s2)
    ensures s2 != null ==> SlotsApart(s0, s1, s2) && Split(t.open, rest, SlotsOwn(s0, s1, s2))
    ensures s2 != null ==>
              && |t.pipes| == |old(t.pipes)| + PipesFor(stdout) + PipesFor(stderr)
              && s1.parentFd == ParentEnd(stdout, Stdout, t.pipes, |old(t.pipes)|)
              && s2.parentFd == ParentEnd(stderr, Stderr, t.pipes, |old(t.pipes)| + PipesFor(stdout))
  {
    s2 := null;
    s1 := StdioSlot.Resolve(t, stdout, Stdout);
    if s1 == null {
      DropStdio(t, stderr);
      return;
    }
    ghost var pipes := t.pipes;
    ghost var held := rest + s0.Owns();
    assert Split(t.open, held + Brought(stderr), s1.Owns());
    s2 := StdioSlot.Resolve(t, stderr, Stderr);
    if s2 == null {
      s1.Drop(t);
      assert t.open == held;
    } else {
      ParentEndStays(stdout, Stdout, pipes, t.pipes, |old(t.pipes)|);
    }
  }

  /** The returned child: its parent's stdio ends and, where they could be opened, pidfd and namespace descriptors. */
  datatype SpawnResult =
    | Spawned(stdin: Option<nat>, stdout: Option<nat>, stderr: Option<nat>, extras: set<nat>)
    | SpawnError
  {
    /** What the caller now owns. */
    function Handed(): set<nat> {
      if Spawned? then Held(stdin) + Held(stdout) + Held(stderr) + extras else {}
    }
  }

  function Held(fd: Option<nat>): set<nat> {
    if fd.Some? then {fd.value} else {}
  }

  /** A failure after `clone`: the ready pipe is closed, the error pipe and the slots are dropped. */
  method FailAfterClone(t: FdTable, s0: StdioSlot, s1: StdioSlot, s2: StdioSlot, readyWrite: AutoCloseFd,
                        errorRead: AutoCloseFd, ghost rest: set<nat>, ghost base: set<nat>)
    requires readyWrite != errorRead && readyWrite.Owns() !! errorRead.Owns()
    requires SlotsApart(s0, s1, s2) && Split(t.open, rest, SlotsOwn(s0, s1, s2))
    requires Split(rest, base, readyWrite.Owns() + errorRead.Owns())
    modifies t`open, s0, s1, s2, readyWrite, errorRead
    ensures t.open == base
  {
    SplitShrinks(t.open, rest, SlotsOwn(s0, s1, s2), readyWrite.Owns());
    SplitShrinks(t.open - readyWrite.Owns(), rest - readyWrite.Owns(), SlotsOwn(s0, s1, s2), errorRead.Owns());
    assert rest - readyWrite.Owns() - errorRead.Owns() == base;
    readyWrite.Close(t);
    errorRead.Close(t);
    DropSlots(t, s0, s1, s2, base);
  }

  /**
   Steps 7 to 11, after `clone` and the closes of the child's pipe ends: every failure of the maps, the cgroup, the
   release and the drain returns through the drops.
   */
  method AfterClone(t: FdTable, s0: StdioSlot, s1: StdioSlot, s2: StdioSlot, readyWrite: AutoCloseFd,
                    errorRead: AutoCloseFd, ghost rest: set<nat>, ghost base: set<nat>)
    returns (r: SpawnResult)
    requires readyWrite != errorRead && readyWrite.Owns() !! errorRead.Owns()
    requires SlotsApart(s0, s1, s2) && Split(t.open, rest, SlotsOwn(s0, s1, s2))
    requires Split(rest, base, readyWrite.Owns() + errorRead.Owns())
    modifies t`open, t`failed, s0, s1, s2, readyWrite, errorRead
    ensures Split(t.open, base, r.Handed())
    ensures t.failed >= old(t.failed) && (r.SpawnError? <==> t.failed > old(t.failed))
    ensures r.Spawned? ==> r.stdin == old(s0.parentFd) && r.stdout == old(s1.parentFd) && r.stderr == old(s2.parentFd)
  {
    var errorWriteClosed := t.Attempt();
    if !errorWriteClosed {
      FailAfterClone(t, s0, s1, s2, readyWrite, errorRead, rest, base);
      return SpawnError;
    }
    CloseChildSides(t, s0, s1, s2, rest);
    var mapsAndLimits := t.Attempt();
    if !mapsAndLimits {
      FailAfterClone(t, s0, s1, s2, readyWrite, errorRead, rest, base);
      return SpawnError;
    }
    ghost var w := readyWrite.Owns();
    ghost var own := SlotsOwn(s0, s1, s2);
    ghost var all := t.open;
    var byte := readyWrite.WriteByteAndClose(t);
    ghost var gone := w - readyWrite.Owns();
    SplitShrinks(all, rest, own, gone);
    ghost var rest' := rest - gone;
    assert Split(rest', base, readyWrite.Owns() + errorRead.Owns());
    if !byte.Released? {
      FailAfterClone(t, s0, s1, s2, readyWrite, errorRead, rest', base);
      return SpawnError;
    }
    var cleanEof := t.Attempt();
    if !cleanEof {
      FailAfterClone(t, s0, s1, s2, readyWrite, errorRead, rest', base);
      return SpawnError;
    }
    SplitShrinks(t.open, rest', own, errorRead.Owns());
    assert rest' - errorRead.Owns() == base;
    errorRead.Close(t);
    r := HandOver(t, s0, s1, s2, base);
  }

  /** Step 11: optional pidfd and namespace descriptors, then the parent's pipe ends move into the returned child. */
  method HandOver(t: FdTable, s0: StdioSlot, s1: StdioSlot, s2: StdioSlot, ghost base: set<nat>)
    returns (r: SpawnResult)
    requires SlotsApart(s0, s1, s2) && Split(t.open, base, SlotsOwn(s0, s1, s2))
    requires s0.ChildSide() == {} && s1.ChildSide() == {} && s2.ChildSide() == {}
    modifies t`open, s0, s1, s2
    ensures r.Spawned? && Split(t.open, base, r.Handed())
    ensures r.stdin == old(s0.parentFd) && r.stdout == old(s1.parentFd) && r.stderr == old(s2.parentFd)
  {
    var extra := OpenExtras(t);
    ghost var own := SlotsOwn(s0, s1, s2);
    var f0 := s0.TakeParentFd();
    var f1 := s1.TakeParentFd();
    var f2 := s2.TakeParentFd();
    assert own == Held(f0) + Held(f1) + Held(f2);
    s2.Drop(t);
    s1.Drop(t);
    s0.Drop(t);
    r := Spawned(f0, f1, f2, extra);
  }

  /** The pidfd and the two namespace descriptors, each optional. */
  method OpenExtras(t: FdTable) returns (extra: set<nat>)
    modifies t`open
    ensures Split(t.open, old(t.open), extra)
  {
    var pidfd := t.TryOpen();
    var userNs := t.TryOpen();
    var mntNs := t.TryOpen();
    extra := Held(pidfd) + Held(userNs) + Held(mntNs);
  }

  /** A new pipe as two auto-closing ends. */
  method OpenSyncPipe(t: FdTable) returns (r: AutoCloseFd?, w: AutoCloseFd?)
    modifies t
    ensures t.failed == old(t.failed) + (if r == null then 1 else 0) && old(t.pipes) <= t.pipes
    ensures r == null ==> t.open == old(t.open)
    ensures r != null ==> w != null && fresh(r) && fresh(w) && r != w && r.Owns() !! w.Owns()
                          && Split(t.open, old(t.open), r.Owns() + w.Owns())
  {
    var ends := t.OpenPipe();
    if ends.None? {
      return null, null;
    }
    r := new AutoCloseFd(ends.value.0);
    w := new AutoCloseFd(ends.value.1);
  }

  /** Step 3 with the slots in hand: the ready pipe. */
  method WithSlots(t: FdTable, s0: StdioSlot, s1: StdioSlot, s2: StdioSlot, ghost base: set<nat>)
    returns (r: SpawnResult)
    requires SlotsApart(s0, s1, s2) && Split(t.open, base, SlotsOwn(s0, s1, s2))
    modifies t, s0, s1, s2
    ensures Split(t.open, base, r.Handed()) && old(t.pipes) <= t.pipes
    ensures t.failed >= old(t.failed) && (r.SpawnError? <==> t.failed > old(t.failed))
    ensures r.Spawned? ==> r.stdin == old(s0.parentFd) && r.stdout == old(s1.parentFd) && r.stderr == old(s2.parentFd)
  {
    ghost var all := t.open;
    var readyRead, readyWrite := OpenSyncPipe(t);
    if readyRead == null {
      DropSlots(t, s0, s1, s2, base);
      return SpawnError;
    }
    r := WithReadyPipe(t, s0, s1, s2, readyRead, readyWrite, all, base);
  }

  /** Steps 3 to 7: the error pipe, `clone`, and the closes of the child's ends. */
  method WithReadyPipe(t: FdTable, s0: StdioSlot, s1: StdioSlot, s2: StdioSlot, readyRead: AutoCloseFd,
                       readyWrite: AutoCloseFd, ghost all: set<nat>, ghost base: set<nat>)
    returns (r: SpawnResult)
    requires SlotsApart(s0, s1, s2) && Split(all, base, SlotsOwn(s0, s1, s2))
    requires readyRead != readyWrite && readyRead.Owns() !! readyWrite.Owns()
    requires Split(t.open, all, readyRead.Owns() + readyWrite.Owns())
    modifies t, s0, s1, s2, readyRead, readyWrite
    ensures Split(t.open, base, r.Handed()) && old(t.pipes) <= t.pipes
    ensures t.failed >= old(t.failed) && (r.SpawnError? <==> t.failed > old(t.failed))
    ensures r.Spawned? ==> r.stdin == old(s0.parentFd) && r.stdout == old(s1.parentFd) && r.stderr == old(s2.parentFd)
  {
    ghost var own, all1 := SlotsOwn(s0, s1, s2), t.open;
    var errorRead, errorWrite := OpenSyncPipe(t);
    var cloned := t.Attempt(); // a failure also stands for an environment string with a NUL byte
    if errorRead == null || !cloned {
      if errorRead != null {
        errorWrite.Close(t);
        errorRead.Close(t);
      }
      assert t.open == all1;
      readyWrite.Close(t);
      readyRead.Close(t);
      assert t.open == all;
      DropSlots(t, s0, s1, s2, base);
      return SpawnError;
    }
    ghost var kept := readyWrite.Owns() + errorRead.Owns();
    readyRead.Close(t);
    errorWrite.Close(t);
    assert t.open == all + kept && kept !! all;
    SplitGrows(all, base, own, kept);
    r := AfterClone(t, s0, s1, s2, readyWrite, errorRead, base + kept, base);
  }

  /**
   The ledger of `run_prepared`: on every path each descriptor that was opened or brought is closed exactly once or
   handed to the returned child, none is closed twice, and nothing else the process had open is touched. A success
   hands over the parent's end of each piped stream and no other stdio descriptor. The spawn fails exactly when a
   mandatory step does or a standard descriptor was brought.
   */
  method RunPrepared(t: FdTable, stdin: Stdio, stdout: Stdio, stderr: Stdio) returns (r: SpawnResult)
    requires BroughtApart(stdin, stdout, stderr)
    requires Brought(stdin) + Brought(stdout) + Brought(stderr) <= t.open
    modifies t
    ensures Split(t.open, old(t.open) - (Brought(stdin) + Brought(stdout) + Brought(stderr)), r.Handed())
    ensures r.Spawned? ==>
              HandedOver(r.stdin, r.stdout, r.stderr, stdin, stdout, stderr, t.pipes, |old(t.pipes)|)
    ensures r.SpawnError? <==> Refused(stdin) || Refused(stdout) || Refused(stderr) || t.failed > old(t.failed)
  {
    ghost var base := t.open - (Brought(stdin) + Brought(stdout) + Brought(stderr));
    var s0, s1, s2 := ResolveAll(t, stdin, stdout, stderr, base);
    if s2 == null {
      return SpawnError;
    }
    ghost var f0, f1, f2, pipes := s0.parentFd, s1.parentFd, s2.parentFd, t.pipes;
    r := WithSlots(t, s0, s1, s2, base);
    HandedOverStays(f0, f1, f2, stdin, stdout, stderr, pipes, t.pipes, |old(t.pipes)|);
  }
}
