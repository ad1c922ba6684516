/**
 `dynamic_bind_mount` and its forked helper (src/mount/syscalls.rs): the status byte, the mount stack of the target,
 and the detached mount's descriptor. Every system call has an outcome chosen by the environment.
 */
module DynamicBind {
  import opened MachineInts
  import opened Wrappers
  import opened MountOps
  import MkdirP

  // ----- the status byte -----

  const STATUS_OK: U8 := 0
  const STATUS_ERROR: U8 := 1

  function Clamp(x: int, lo: int, hi: int): int {
    if x < lo then lo else if x > hi then hi else x
  }

  /** `encode_errno` as compiled for release: clamp to 0..=253, then a saturating add of 2. */
  function EncodeErrno(errno: int): U8 {
    var e := Clamp(errno, 0, 253) + 2;
    if e > 255 then 255 else e
  }

  datatype BindResult = Attached | GenericFailure | NoStatus | Failed(errno: int) | NotStarted

  /** How the parent reads the status byte. */
  function DecodeStatus(status: U8): BindResult {
    if status == STATUS_OK then Attached
    else if status == STATUS_ERROR then GenericFailure
    else Failed(status - 2)
  }

  /**
   An errno survives the status byte exactly when in range, is clamped otherwise, and never reads as success, which is
   byte 0, or as a generic failure, which is byte 1.
   */
  lemma {:induction false} ErrnoRoundTrip(errno: int)
    ensures DecodeStatus(EncodeErrno(errno)) == Failed(errno) <==> 0 <= errno <= 253
    ensures DecodeStatus(EncodeErrno(errno)) == Failed(if errno < 0 then 0 else if errno > 253 then 253 else errno)
    ensures DecodeStatus(0) == Attached && DecodeStatus(1) == GenericFailure
    ensures EncodeErrno(errno) >= 2 && (0 <= errno <= 253 ==> EncodeErrno(errno) == errno + 2)
  {
  }

  // ----- the helper -----

  /** Outcomes of the system calls around the operation; an errno of 0 is success. */
  datatype Env = Env(
    mountApi: bool,          // open_tree exists
    sourceHasNul: bool,
    pipes: bool, forks: bool,
    entersUserNs: bool,      // open and setns of the user namespace
    openTree: nat,
    entersMountNs: bool,     // open and setns of the mount namespace
    moveMount: nat,
    remount: nat,
    rollback: bool,          // the umount2 after a failed remount
    statusSent: bool,        // the helper's write of the status byte
    waits: bool,             // waitpid, after its retries
    statusRead: bool)        // the parent's read of the status byte

  /** A mount on top of the target, with its per-mount options. */
  datatype Mount = Mount(options: set<MsFlag>)

  /** The options a successful call leaves: the requested ones, or those of the source when none were requested. */
  function FinalOptions(p: Permission, recursive: bool, inherited: set<MsFlag>): set<MsFlag> {
    match RemountFlags(p, recursive)
    case None => inherited
    case Some(flags) => OptionsOf(flags)
  }

  /** Those are: read-only, or exactly the custom flags; an empty custom set and read-write ask for nothing. */
  lemma {:induction false} OptionsByPermission(p: Permission, recursive: bool, inherited: set<MsFlag>)
    ensures FinalOptions(p, recursive, inherited)
         == match p
            case ReadOnly => {MS_RDONLY}
            case ReadWrite => inherited
            case Custom(flags) => if flags == {} then inherited else MountFlagsToMs(flags)
  {
    RemountOnlyOnRequest(p, recursive);
  }

  /** The helper gets as far as its operation. */
  predicate OpRuns(env: Env) {
    && env.mountApi && !env.sourceHasNul && env.pipes && env.forks
    && env.entersUserNs && env.openTree == 0 && env.entersMountNs
  }

  /** The detached tree gets attached to the target. */
  predicate Attaches(env: Env, targetLen: nat, mkdirRet: nat) {
    OpRuns(env) && mkdirRet == 0 && targetLen < 4096 && env.moveMount == 0
  }

  /** The operation returns 0. */
  predicate Succeeds(env: Env, targetLen: nat, mkdirRet: nat, p: Permission) {
    Attaches(env, targetLen, mkdirRet) && (RemountFlags(p, false).Some? ==> env.remount == 0)
  }

  /** The errno of the first step of the operation that fails, 0 if none does. */
  function OpErrno(env: Env, targetLen: nat, mkdirRet: nat, p: Permission): nat {
    if mkdirRet != 0 then mkdirRet
    else if targetLen >= 4096 then 36 // ENAMETOOLONG
    else if env.moveMount != 0 then env.moveMount
    else if RemountFlags(p, false).Some? then env.remount
    else 0
  }

  /** The parent learns the helper's status. */
  predicate StatusArrives(env: Env) {
    env.statusSent && env.waits && env.statusRead
  }

  /** The status of a success arrives, and a mount that could not be remounted is taken down again. */
  predicate NothingLeftBehind(env: Env, targetLen: nat, mkdirRet: nat, p: Permission) {
    && (Succeeds(env, targetLen, mkdirRet, p) ==> StatusArrives(env))
    && (Attaches(env, targetLen, mkdirRet) && !Succeeds(env, targetLen, mkdirRet, p) ==> env.rollback)
  }

  /** What the caller is told: a lost status before all else, then the first step of the helper that failed. */
  function ExpectedResult(env: Env, targetLen: nat, mkdirRet: nat, p: Permission): BindResult {
    if !env.mountApi || env.sourceHasNul || !env.pipes || !env.forks then NotStarted
    else if !StatusArrives(env) then NoStatus
    else if !env.entersUserNs then GenericFailure
    else if env.openTree != 0 then Failed(AtMost253(env.openTree))
    else if !env.entersMountNs then GenericFailure
    else if Succeeds(env, targetLen, mkdirRet, p) then Attached
    else Failed(AtMost253(OpErrno(env, targetLen, mkdirRet, p)))
  }

  function AtMost253(errno: nat): nat {
    if errno > 253 then 253 else errno
  }

  /** The mount stack that a call leaves on the target. */
  function StackAfter(stack: seq<Mount>, env: Env, targetLen: nat, mkdirRet: nat, p: Permission, recursive: bool,
                      inherited: set<MsFlag>): seq<Mount> {
    if Succeeds(env, targetLen, mkdirRet, p) then stack + [Mount(FinalOptions(p, recursive, inherited))]
    else if Attaches(env, targetLen, mkdirRet) && !env.rollback then stack + [Mount(inherited)]
    else stack
  }

  /**
   All or nothing on stacks: a success adds exactly one mount with the requested options; anything else leaves the stack
   alone if and only if no attached mount stays without its rollback; and one mount more is the worst that can remain.
   */
  lemma {:induction false} AllOrNothingExactly(stack: seq<Mount>, env: Env, targetLen: nat, mkdirRet: nat,
                                               p: Permission, recursive: bool, inherited: set<MsFlag>)
    ensures var after := StackAfter(stack, env, targetLen, mkdirRet, p, recursive, inherited);
            && (Succeeds(env, targetLen, mkdirRet, p) ==>
                  after == stack + [Mount(FinalOptions(p, recursive, inherited))] && after != stack)
            && (!Succeeds(env, targetLen, mkdirRet, p) ==>
                  (after == stack <==> (Attaches(env, targetLen, mkdirRet) ==> env.rollback)))
            && (after == stack || (|after| == |stack| + 1 && stack < after))
  {
    assert |stack + [Mount(inherited)]| != |stack|;
    assert |stack + [Mount(FinalOptions(p, recursive, inherited))]| != |stack|;
  }

  /** The sandbox's mount namespace as seen at one target, and the detached descriptor's history. */
  class MountNamespace {
    var stack: seq<Mount>
    const fs: MkdirP.FileSystem
    var fdOpen: bool
    var closes: nat

    constructor (fs: MkdirP.FileSystem)
      ensures stack == [] && this.fs == fs && !fdOpen && closes == 0
    {
      stack, fdOpen, closes := [], false, 0;
      this.fs := fs;
    }

    method CloseDetached()
      requires fdOpen
      modifies this`fdOpen, this`closes
      ensures !fdOpen && closes == old(closes) + 1
    {
      fdOpen, closes := false, closes + 1;
    }

    /**
     The `op` closure: directories, attach, remount, rollback. The descriptor is closed once on every path; the
     directories are those of `raw_mkdir_p`; the mount stack and the return value follow from the first failing step.
     */
    method Op(target: seq<U8>, p: Permission, recursive: bool, inherited: set<MsFlag>, env: Env)
      returns (ret: nat, ghost mkdirRet: nat, ghost limit: nat)
      requires OpRuns(env) && fdOpen
      modifies this`stack, this`fdOpen, this`closes, fs
      ensures !fdOpen && closes == old(closes) + 1
      ensures MkdirP.MadePath(target, mkdirRet, limit, old(fs.Now()), fs.Now())
      ensures ret == OpErrno(env, |target|, mkdirRet, p)
      ensures ret == 0 <==> Succeeds(env, |target|, mkdirRet, p)
      ensures stack == StackAfter(old(stack), env, |target|, mkdirRet, p, recursive, inherited)
    {
      var m;
      m, limit := fs.RawMkdirP(target);
      mkdirRet := m;
      if m != 0 {
        CloseDetached();
        return m, m, limit;
      }
      if |target| >= MkdirP.BUF_LEN {
        CloseDetached();
        return MkdirP.ENAMETOOLONG, m, limit;
      }
      if env.moveMount == 0 {
        stack := stack + [Mount(inherited)];
      }
      CloseDetached();
      if env.moveMount != 0 {
        return env.moveMount, m, limit;
      }
      var flags := RemountFlags(p, recursive);
      if flags.Some? {
        if env.remount != 0 {
          if env.rollback {
            stack := stack[..|stack| - 1];
          }
          return env.remount, m, limit;
        }
        stack := stack[..|stack| - 1] + [Mount(OptionsOf(flags.value))];
      }
      ret := 0;
    }

    /** The forked helper: it enters the namespaces, runs the operation, and leaves with a status byte. */
    method Helper(target: seq<U8>, p: Permission, recursive: bool, inherited: set<MsFlag>, env: Env)
      returns (status: U8, ghost mkdirRet: nat, ghost limit: nat)
      requires !fdOpen && env.mountApi && !env.sourceHasNul && env.pipes && env.forks
      modifies this`stack, this`fdOpen, this`closes, fs
      ensures if OpRuns(env) then MkdirP.MadePath(target, mkdirRet, limit, old(fs.Now()), fs.Now())
              else fs.Now() == old(fs.Now())
      ensures stack == StackAfter(old(stack), env, |target|, mkdirRet, p, recursive, inherited)
      ensures closes == old(closes) + if OpRuns(env) then 1 else 0
      ensures OpRuns(env) ==> !fdOpen
      ensures StatusArrives(env) ==> DecodeStatus(status) == ExpectedResult(env, |target|, mkdirRet, p)
    {
      status, mkdirRet, limit := STATUS_ERROR, 0, 0;
      if env.entersUserNs {
        if env.openTree != 0 {
          status := EncodeErrno(env.openTree);
          ErrnoRoundTrip(env.openTree);
        } else {
          fdOpen := true;
          if env.entersMountNs {
            var ret;
            ret, mkdirRet, limit := Op(target, p, recursive, inherited, env);
            status := if ret == 0 then STATUS_OK else EncodeErrno(ret);
            ErrnoRoundTrip(ret);
          }
        }
      }
    }

    /**
     `dynamic_bind_mount` through `fork_in_namespaces`: the helper's steps in order, then the parent's reading of its
     status. An Ok call (`Attached`) leaves exactly one more mount, with the requested options; a call that fails leaves
     the mounts alone, precisely when the status of a success arrives and a failed remount is rolled back.
     */
    method DynamicBindMount(target: seq<U8>, p: Permission, recursive: bool, inherited: set<MsFlag>, env: Env)
      returns (r: BindResult, ghost mkdirRet: nat, ghost limit: nat)
      requires !fdOpen
      modifies this`stack, this`fdOpen, this`closes, fs
      ensures if OpRuns(env) then MkdirP.MadePath(target, mkdirRet, limit, old(fs.Now()), fs.Now())
              else fs.Now() == old(fs.Now())
      ensures r.Attached? <==> Succeeds(env, |target|, mkdirRet, p) && StatusArrives(env)
      ensures r.Attached? ==> stack == old(stack) + [Mount(FinalOptions(p, recursive, inherited))]
      ensures (!r.Attached? ==> stack == old(stack)) <==> NothingLeftBehind(env, |target|, mkdirRet, p)
      ensures stack == StackAfter(old(stack), env, |target|, mkdirRet, p, recursive, inherited)
      ensures closes == old(closes) + if OpRuns(env) then 1 else 0
      ensures OpRuns(env) ==> !fdOpen
      ensures OpRuns(env) && StatusArrives(env) && 0 < OpErrno(env, |target|, mkdirRet, p) <= 253 ==>
                r == Failed(OpErrno(env, |target|, mkdirRet, p))
      ensures r == ExpectedResult(env, |target|, mkdirRet, p)
      ensures r.Failed? ==> 0 <= r.errno <= 253 && StatusArrives(env)
    {
      mkdirRet, limit := 0, 0;
      if !env.mountApi || env.sourceHasNul || !env.pipes || !env.forks {
        return NotStarted, mkdirRet, limit;
      }
      var status;
      status, mkdirRet, limit := Helper(target, p, recursive, inherited, env);
      AllOrNothingExactly(old(stack), env, |target|, mkdirRet, p, recursive, inherited);
      if !env.waits || !env.statusSent || !env.statusRead {
        return NoStatus, mkdirRet, limit;
      }
      r := DecodeStatus(status);
    }
  }
}
