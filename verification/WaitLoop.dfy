/**
 `wait_with_timeout` (src/process/wait.rs): poll, drain, reap, kill after the limit, give up after the grace period.
 The child, the clock and the pipes evolve between and during system calls; times are in nanoseconds.
 */
module WaitLoop {
  import opened MachineInts
  import opened Wrappers

  const REAP_POLL_INTERVAL: nat := 10_000_000
  const POST_KILL_GRACE: nat := 5_000_000_000

  datatype ReadAnswer = Got(bytes: seq<U8>) | Nothing | ReadError

  /**
   The read end of the child's stdout or stderr, non-blocking, with the child as its only writer. `pending` is the
   output the child has yet to produce; `written` is everything it has written so far.
   */
  class OutputPipe {
    var queue: seq<U8>
    var pending: seq<U8>
    ghost var written: seq<U8>
    var lastFailed: bool // the last read failed
    var errors: nat      // reads that failed

    /** The child moves on: some of its pending output enters the pipe. What was collected, `buf`, stays in step. */
    method Flows(ghost buf: seq<U8>)
      requires written == buf + queue
      modifies this`queue, this`pending, this`written
      ensures written == buf + queue
      ensures written + pending == old(written + pending) && old(written) <= written
      ensures |queue| + |pending| == |old(queue)| + |old(pending)|
      ensures old(pending) == [] ==> queue == old(queue) && pending == []
    {
      var n: int := *;
      if 0 <= n <= |pending| {
        assert pending == pending[..n] + pending[n..];
        queue := queue + pending[..n];
        written := written + pending[..n];
        pending := pending[n..];
      }
    }

    /** `read(2)` on the non-blocking end: some queued bytes, nothing (end of file or `EAGAIN`), or an error. */
    method Read(max: nat, ghost buf: seq<U8>) returns (r: ReadAnswer)
      requires max > 0 && written == buf + queue
      modifies this
      ensures written == buf + (if r.Got? then r.bytes else []) + queue
      ensures written + pending == old(written + pending) && old(written) <= written
      ensures r.Got? ==> 0 < |r.bytes| <= max
      ensures r.Nothing? ==> queue == []
      ensures |queue| + |pending| + (if r.Got? then |r.bytes| else 0) == |old(queue)| + |old(pending)|
      ensures old(pending) == [] ==> pending == []
      ensures lastFailed == r.ReadError? && errors == old(errors) + if r.ReadError? then 1 else 0
    {
      Flows(buf);
      ghost var q := queue;
      var failed: bool := *;
      lastFailed := failed;
      if failed {
        errors := errors + 1;
        r := ReadError;
      } else if queue == [] {
        r := Nothing;
      } else {
        var n: int := *;
        if !(0 < n <= max && n <= |queue|) {
          n := 1;
        }
        r := Got(queue[..n]);
        queue := queue[n..];
        assert q == r.bytes + queue;
      }
    }
  }

  /** What was collected followed by what is still in the pipe is what the child wrote, in order. */
  ghost predicate Conserved(buf: seq<U8>, fd: OutputPipe?)
    reads fd
  {
    if fd == null then buf == [] else fd.written == buf + fd.queue
  }

  /** The stream's past and future output, which no read changes. */
  ghost function Output(fd: OutputPipe?): seq<U8>
    reads fd
  {
    if fd == null then [] else fd.written + fd.pending
  }

  /** Everything written has been collected, or the last read failed, which the error count shows. */
  ghost predicate Drained(fd: OutputPipe, errors: nat)
    reads fd
  {
    if fd.lastFailed then fd.errors > errors else fd.queue == []
  }

  /**
   `read_available` and `drain_owned_fd`: nothing is lost or reordered, and the pipe is emptied unless a read failed.
   */
  method ReadAvailable(fd: OutputPipe?, buf: seq<U8>) returns (buf': seq<U8>)
    requires Conserved(buf, fd)
    modifies fd
    ensures Conserved(buf', fd) && buf <= buf'
    ensures Output(fd) == old(Output(fd))
    ensures fd != null ==> old(fd.written) <= fd.written && (old(fd.pending) == [] ==> fd.pending == [])
    ensures fd != null ==> Drained(fd, old(fd.errors)) && fd.errors >= old(fd.errors)
    ensures fd != null && fd.errors == old(fd.errors) ==> fd.queue == []
  {
    buf' := buf;
    if fd == null {
      return;
    }
    while true
      invariant Conserved(buf', fd) && buf <= buf'
      invariant Output(fd) == old(Output(fd)) && old(fd.written) <= fd.written
      invariant old(fd.pending) == [] ==> fd.pending == []
      invariant fd.errors == old(fd.errors)
      decreases |fd.queue| + |fd.pending|
    {
      var r := fd.Read(4096, buf');
      match r
      case Got(bytes) => buf' := buf' + bytes;
      case Nothing => return;
      case ReadError => return;
    }
  }

  datatype WaitStatus = ExitedWith(code: int) | SignaledBy(signal: int)

  datatype ReapAnswer = NotYet | Reaped(status: WaitStatus) | ReapError

  /** The exit code the caller sees: `128 + signal` for a signal death. */
  function ExitCode(status: WaitStatus): int {
    match status
    case ExitedWith(code) => code
    case SignaledBy(signal) => 128 + signal
  }

  /** The child process and the clock. A child that has exited writes nothing more. */
  class World {
    var clock: nat
    var exited: bool
    var status: WaitStatus
    var kills: seq<nat>  // when SIGKILL was sent
    var sleeps: nat      // completed sleeps of one poll interval
    var reapErrors: nat  // failed waitpid calls

    ghost predicate Valid(out: OutputPipe?, err: OutputPipe?)
      reads this, out, err
    {
      exited ==> (out != null ==> out.pending == []) && (err != null ==> err.pending == [])
    }

    /** Time passes; the child may write, and may exit, which drops output it never wrote. */
    method Evolves(out: OutputPipe?, err: OutputPipe?, ghost stdout: seq<U8>, ghost stderr: seq<U8>, atLeast: nat)
      requires Valid(out, err) && (out == null || out != err)
      requires Conserved(stdout, out) && Conserved(stderr, err)
      modifies this`clock, this`exited, this`status, out, err
      ensures Valid(out, err) && Conserved(stdout, out) && Conserved(stderr, err)
      ensures clock >= old(clock) + atLeast
      ensures out != null ==> out.errors == old(out.errors)
      ensures err != null ==> err.errors == old(err.errors)
    {
      var delta: int := *;
      clock := clock + atLeast + if delta >= 0 then delta else 0;
      if out != null { out.Flows(stdout); }
      if err != null { err.Flows(stderr); }
      var exits: bool := *;
      if exits && !exited {
        exited := true;
        status := *;
        if out != null { out.pending := []; }
        if err != null { err.pending := []; }
      }
    }

    /** `thread::sleep(REAP_POLL_INTERVAL)`. */
    method Sleep(out: OutputPipe?, err: OutputPipe?, ghost stdout: seq<U8>, ghost stderr: seq<U8>)
      requires Valid(out, err) && (out == null || out != err)
      requires Conserved(stdout, out) && Conserved(stderr, err)
      modifies this`clock, this`exited, this`status, this`sleeps, out, err
      ensures Valid(out, err) && Conserved(stdout, out) && Conserved(stderr, err)
      ensures clock >= old(clock) + REAP_POLL_INTERVAL && sleeps == old(sleeps) + 1
      ensures out != null ==> out.errors == old(out.errors)
      ensures err != null ==> err.errors == old(err.errors)
    {
      sleeps := sleeps + 1;
      Evolves(out, err, stdout, stderr, REAP_POLL_INTERVAL);
    }

    /** `try_reap`: a non-blocking `waitpid`, after its retries. */
    method TryReap(out: OutputPipe?, err: OutputPipe?, ghost stdout: seq<U8>, ghost stderr: seq<U8>)
      returns (r: ReapAnswer)
      requires Valid(out, err) && (out == null || out != err)
      requires Conserved(stdout, out) && Conserved(stderr, err)
      modifies this`clock, this`exited, this`status, this`reapErrors, out, err
      ensures Valid(out, err) && Conserved(stdout, out) && Conserved(stderr, err)
      ensures clock >= old(clock)
      ensures r.Reaped? ==> exited && r.status == status
      ensures reapErrors == old(reapErrors) + if r.ReapError? then 1 else 0
      ensures out != null ==> out.errors == old(out.errors)
      ensures err != null ==> err.errors == old(err.errors)
    {
      Evolves(out, err, stdout, stderr, 0);
      var fails: bool := *;
      if fails {
        reapErrors := reapErrors + 1;
        return ReapError;
      }
      r := if exited then Reaped(status) else NotYet;
    }

    /** `kill_child`. */
    method Kill()
      modifies this`kills
      ensures kills == old(kills) + [clock]
    {
      kills := kills + [clock];
    }
  }

  datatype WaitResult =
    | Collected(stdout: seq<U8>, stderr: seq<U8>, exitCode: int, killedByTimeout: bool, signal: Option<int>)
    | ReapFailed
    | Unkillable

  /** The buffer is the stream's complete output, unless the last read of the pipe failed. */
  ghost predicate CompleteUnlessFailed(buf: seq<U8>, fd: OutputPipe, errors: nat)
    reads fd
  {
    if fd.lastFailed then fd.errors > errors else buf == fd.written && fd.pending == []
  }

  /** The first half of a round: drain both pipes, reap, and drain them again behind an exited child. */
  method DrainAndReap(w: World, out: OutputPipe?, err: OutputPipe?, stdout: seq<U8>, stderr: seq<U8>)
    returns (stdout': seq<U8>, stderr': seq<U8>, reap: ReapAnswer)
    requires w.Valid(out, err) && (out == null || out != err)
    requires Conserved(stdout, out) && Conserved(stderr, err)
    modifies w`clock, w`exited, w`status, w`reapErrors, out, err
    ensures w.Valid(out, err) && Conserved(stdout', out) && Conserved(stderr', err)
    ensures w.clock >= old(w.clock) && w.reapErrors == old(w.reapErrors) + if reap.ReapError? then 1 else 0
    ensures out != null ==> out.errors >= old(out.errors)
    ensures err != null ==> err.errors >= old(err.errors)
    ensures reap.Reaped? ==> w.exited && reap.status == w.status
    ensures reap.Reaped? && out != null ==> CompleteUnlessFailed(stdout', out, old(out.errors))
    ensures reap.Reaped? && err != null ==> CompleteUnlessFailed(stderr', err, old(err.errors))
  {
    stdout' := ReadAvailable(out, stdout);
    stderr' := ReadAvailable(err, stderr);
    reap := w.TryReap(out, err, stdout', stderr');
    if reap.Reaped? {
      stdout' := ReadAvailable(out, stdout');
      stderr' := ReadAvailable(err, stderr');
    }
  }

  /**
   `wait_with_timeout`. Output conservation holds on every path, and the returned buffers are the child's complete
   output unless the last read of a pipe failed. `SIGKILL` is sent at most once, only after the limit has elapsed,
   and exactly when the flag says so. Giving up takes 5 seconds after the kill, and the number of 10 ms sleeps is
   bounded linearly in the limit plus that grace period.
   */
  method WaitWithTimeout(w: World, out: OutputPipe?, err: OutputPipe?, timeout: nat) returns (r: WaitResult)
    requires w.Valid(out, err) && (out == null || out != err)
    requires Conserved([], out) && Conserved([], err)
    modifies w, out, err
    ensures r.Collected? ==> Conserved(r.stdout, out) && Conserved(r.stderr, err) && w.exited
    ensures r.Collected? && out != null ==> CompleteUnlessFailed(r.stdout, out, old(out.errors))
    ensures r.Collected? && err != null ==> CompleteUnlessFailed(r.stderr, err, old(err.errors))
    ensures r.Collected? && out != null && out.errors == old(out.errors) ==>
              r.stdout == out.written && out.pending == []
    ensures r.Collected? && err != null && err.errors == old(err.errors) ==>
              r.stderr == err.written && err.pending == []
    ensures r.Collected? ==>
              r.exitCode == if w.status.ExitedWith? then w.status.code else 128 + w.status.signal
    ensures r.Collected? ==> r.signal == if w.status.SignaledBy? then Some(w.status.signal) else None
    ensures w.kills == old(w.kills) || exists t :: t > old(w.clock) + timeout && w.kills == old(w.kills) + [t]
    ensures r.Collected? ==> (r.killedByTimeout <==> w.kills != old(w.kills))
    ensures r.Unkillable? ==> w.kills != old(w.kills) && w.clock > w.kills[|w.kills| - 1] + 5_000_000_000
    ensures w.reapErrors == old(w.reapErrors) + if r.ReapFailed? then 1 else 0
    ensures (w.sleeps - old(w.sleeps)) * 10_000_000 <= timeout + 5_020_000_000
  {
    var start := w.clock;
    var stdout, stderr: seq<U8> := [], [];
    var killed := false;
    var killTime: Option<nat> := None;
    ghost var polls := 0;
    ghost var kills0 := w.kills;
    ghost var pollsAtKill := 0;
    while true
      invariant w.Valid(out, err) && Conserved(stdout, out) && Conserved(stderr, err)
      invariant out != null ==> out.errors >= old(out.errors)
      invariant err != null ==> err.errors >= old(err.errors)
      invariant w.reapErrors == old(w.reapErrors) && w.sleeps == old(w.sleeps) + polls
      invariant killed <==> killTime.Some?
      invariant !killed ==> w.kills == kills0
      invariant killed ==> killTime.value > start + timeout && w.kills == kills0 + [killTime.value]
      invariant w.clock >= start + polls * REAP_POLL_INTERVAL
      invariant polls <= pollsAtKill + 1 || killed
      invariant !killed ==> pollsAtKill == if polls == 0 then 0 else polls - 1
      invariant pollsAtKill * REAP_POLL_INTERVAL <= timeout + if killed then REAP_POLL_INTERVAL else 0
      invariant killed ==> polls >= pollsAtKill
      invariant killed ==> w.clock >= killTime.value + (polls - pollsAtKill) * REAP_POLL_INTERVAL
      invariant killed && polls > pollsAtKill ==> (polls - 1 - pollsAtKill) * REAP_POLL_INTERVAL <= POST_KILL_GRACE
      decreases timeout + POST_KILL_GRACE + 3 * REAP_POLL_INTERVAL - polls * REAP_POLL_INTERVAL
    {
      var reap;
      stdout, stderr, reap := DrainAndReap(w, out, err, stdout, stderr);
      if reap.ReapError? {
        return ReapFailed;
      }
      if reap.Reaped? {
        var signal := if reap.status.SignaledBy? then Some(reap.status.signal) else None;
        return Collected(stdout, stderr, ExitCode(reap.status), killed, signal);
      }

      w.Evolves(out, err, stdout, stderr, 0);
      if w.clock - start > timeout && !killed {
        w.Kill();
        killed := true;
        killTime := Some(w.clock);
        pollsAtKill := polls;
      }
      if killTime.Some? {
        if w.clock - killTime.value > POST_KILL_GRACE {
          return Unkillable;
        }
      }
      w.Sleep(out, err, stdout, stderr);
      if !killed {
        pollsAtKill := polls;
      }
      polls := polls + 1;
    }
  }
}
