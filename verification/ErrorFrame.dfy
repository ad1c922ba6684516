/**
 The spawn error frame `[tag][message]`: stage tags, the child's capped frame, the write loop that survives partial
 writes, and the parent's drain that reassembles the frame from any split of the reads.
 */
module ErrorFrame {
  import opened MachineInts

  datatype ChildStage = Startup | Fd | Dup2 | Sethostname | Mount | Chdir | Rlimit | Seccomp | Hook | Exec

  const PIPE_BUF := 4096

  /** `stage as u8`. */
  function Tag(stage: ChildStage): U8 {
    match stage
    case Startup => 0
    case Fd => 1
    case Dup2 => 2
    case Sethostname => 3
    case Mount => 4
    case Chdir => 5
    case Rlimit => 6
    case Seccomp => 7
    case Hook => 8
    case Exec => 9
  }

  /** `ChildStage::from_tag`: unknown bytes read as `Startup`. */
  function FromTag(tag: U8): ChildStage {
    match tag
    case 1 => Fd
    case 2 => Dup2
    case 3 => Sethostname
    case 4 => Mount
    case 5 => Chdir
    case 6 => Rlimit
    case 7 => Seccomp
    case 8 => Hook
    case 9 => Exec
    case _ => Startup
  }

  /** The message cut to `PIPE_BUF - 1` bytes. */
  function Capped(msg: seq<U8>): seq<U8> {
    if |msg| <= PIPE_BUF - 1 then msg else msg[..PIPE_BUF - 1]
  }

  /** The cap takes nothing but the bytes past the 4095th. */
  lemma {:induction false} CappedExactly(msg: seq<U8>)
    ensures Capped(msg) <= msg && |Capped(msg)| == if |msg| < 4095 then |msg| else 4095
    ensures |msg| <= 4095 ==> Capped(msg) == msg
  {
  }

  /** The frame `child_abort` writes. */
  function Encode(stage: ChildStage, msg: seq<U8>): seq<U8> {
    [Tag(stage)] + Capped(msg)
  }

  /** How the parent reads a frame: `split_first().unwrap_or((&0, &[]))`, then `from_tag`. */
  function Decode(frame: seq<U8>): (ChildStage, seq<U8>) {
    if frame == [] then (FromTag(0), []) else (FromTag(frame[0]), frame[1..])
  }

  /** The parent recovers the stage and the capped message; the frame is never empty and fits one atomic write. */
  lemma {:induction false} FrameRoundTrip(stage: ChildStage, msg: seq<U8>)
    ensures Decode(Encode(stage, msg)) == (stage, Capped(msg))
    ensures 0 < |Encode(stage, msg)| <= PIPE_BUF
  {
    assert Encode(stage, msg)[1..] == Capped(msg);
  }

  /** Any non-empty part of a frame still names the stage, with that much of the message. */
  lemma {:induction false} FramePrefix(stage: ChildStage, msg: seq<U8>, part: seq<U8>)
    requires part != [] && part <= Encode(stage, msg)
    ensures Decode(part).0 == stage && Decode(part).1 <= Capped(msg)
  {
    var frame := Encode(stage, msg);
    assert part[0] == frame[0] == Tag(stage);
    assert part[1..] == frame[1..][..|part| - 1] && frame[1..] == Capped(msg);
  }

  datatype IoAnswer = Moved(n: nat) | Interrupted | Failed

  /**
   A pipe's write end. Any call may be cut short or interrupted, `interrupts` bounding how often; a call that fails or
   accepts nothing uses up one of `failures`.
   */
  class WriteEnd {
    var sent: seq<U8>
    var interrupts: nat
    var failures: nat
    var open: bool

    /** `write(2)`: a prefix of the data or an error. */
    method Write(data: seq<U8>) returns (r: IoAnswer)
      requires data != []
      modifies this`sent, this`interrupts, this`failures
      ensures r.Moved? ==> r.n <= |data| && sent == old(sent) + data[..r.n]
      ensures !r.Moved? ==> sent == old(sent)
      ensures if r.Interrupted? then interrupts < old(interrupts) else interrupts == old(interrupts)
      ensures if r == Failed || r == Moved(0) then failures < old(failures) else failures == old(failures)
    {
      r := *;
      if r.Interrupted? && interrupts > 0 {
        interrupts := interrupts - 1;
        return;
      }
      if (r == Failed || r == Moved(0)) && failures > 0 {
        failures := failures - 1;
        return;
      }
      var n := if r.Moved? && 0 < r.n <= |data| then r.n else 1;
      sent := sent + data[..n];
      r := Moved(n);
    }

    /**
     `write_all_raw`: interruptions and partial writes are retried, so the data goes out in full unless a call fails;
     then a prefix has gone out.
     */
    method WriteAllRaw(data: seq<U8>) returns (ok: bool)
      modifies this`sent, this`interrupts, this`failures
      ensures old(sent) <= sent <= old(sent) + data
      ensures ok <==> sent == old(sent) + data
      ensures ok <==> failures == old(failures)
      ensures old(failures) == 0 ==> ok
    {
      var rest := data;
      ghost var k := 0;
      while rest != []
        invariant k <= |data| && rest == data[k..] && sent == old(sent) + data[..k]
        invariant failures == old(failures)
        decreases |rest|, interrupts
      {
        var r := Write(rest);
        assert data == data[..k] + rest;
        match r
        case Moved(n) =>
          if n == 0 {
            return false;
          }
          assert data[..k] + rest[..n] == data[..k + n];
          rest, k := rest[n..], k + n;
        case Interrupted =>
        case Failed => return false;
      }
      ok := true;
    }

    /** `child_abort`: one capped frame, complete unless a write fails, then the close that delimits it. */
    method ChildAbort(stage: ChildStage, msg: seq<U8>) returns (status: int)
      modifies this
      ensures status == 1 && !open
      ensures old(sent) <= sent <= old(sent) + Encode(stage, msg)
      ensures sent == old(sent) + Encode(stage, msg) <==> failures == old(failures)
      ensures old(failures) == 0 ==> sent == old(sent) + Encode(stage, msg)
    {
      var frame := [Tag(stage)] + Capped(msg);
      var _ := WriteAllRaw(frame);
      open := false;
      status := 1;
    }
  }

  /** The read end of a pipe whose writers will have sent `stream` before the last of them closes. */
  class ReadEnd {
    var stream: seq<U8>
    var interrupts: nat
    var failures: nat

    /** `read(2)`, blocking: some non-empty prefix of what is still to come, or end of file when nothing is. */
    method Read(max: nat) returns (r: IoAnswer, bytes: seq<U8>)
      requires max > 0
      modifies this
      ensures r.Moved? ==> |bytes| == r.n <= max && old(stream) == bytes + stream && (r.n == 0 <==> old(stream) == [])
      ensures !r.Moved? ==> stream == old(stream) && bytes == []
      ensures if r.Interrupted? then interrupts < old(interrupts) else interrupts == old(interrupts)
      ensures if r.Failed? then failures < old(failures) else failures == old(failures)
    {
      r := *;
      if r.Failed? && failures > 0 {
        failures := failures - 1;
        return Failed, [];
      }
      if r.Interrupted? && interrupts > 0 {
        interrupts := interrupts - 1;
        return Interrupted, [];
      }
      if stream == [] {
        return Moved(0), [];
      }
      var n := if r.Moved? && 0 < r.n <= max && r.n <= |stream| then r.n else 1;
      bytes := stream[..n];
      stream := stream[n..];
      r := Moved(n);
    }

    /** `read_retry`: one read, retried while interrupted. */
    method ReadRetry(max: nat) returns (r: IoAnswer, bytes: seq<U8>)
      requires max > 0
      modifies this
      ensures !r.Interrupted?
      ensures r.Moved? ==> |bytes| == r.n <= max && old(stream) == bytes + stream && (r.n == 0 <==> old(stream) == [])
      ensures r.Failed? ==> stream == old(stream) && failures < old(failures)
      ensures r.Moved? ==> failures == old(failures)
    {
      r, bytes := Read(max);
      while r.Interrupted?
        invariant !r.Moved? ==> stream == old(stream)
        invariant r.Moved? ==>
                    |bytes| == r.n <= max && old(stream) == bytes + stream && (r.n == 0 <==> old(stream) == [])
        invariant if r.Failed? then failures < old(failures) else failures == old(failures)
        decreases r.Interrupted?, interrupts
      {
        r, bytes := Read(max);
      }
    }

    /**
     The blocking drain of `run_prepared`: a clean end of file iff nothing was ever sent, otherwise the whole stream
     as one frame, however the reads were split; without read failures nothing is lost.
     */
    method DrainErrorPipe() returns (r: DrainResult)
      modifies this
      ensures r.CleanEof? ==> old(stream) == []
      ensures r.Frame? ==> 0 < |r.bytes| && r.bytes <= old(stream)
      ensures failures <= old(failures)
      ensures failures == old(failures) ==> r == if old(stream) == [] then CleanEof else Frame(old(stream))
    {
      var answer, bytes := ReadRetry(4096);
      if answer.Failed? {
        return ReadError;
      }
      if answer.n == 0 {
        return CleanEof;
      }
      var frame := bytes;
      while true
        invariant frame + stream == old(stream) && 0 < |frame|
        invariant failures == old(failures)
        decreases |stream|
      {
        answer, bytes := ReadRetry(4096);
        if answer.Failed? || answer.n == 0 {
          assert answer.Moved? ==> stream == [] && frame == old(stream);
          return Frame(frame);
        }
        frame := frame + bytes;
      }
    }
  }

  datatype DrainResult = CleanEof | Frame(bytes: seq<U8>) | ReadError

  /**
   End to end: whatever the partial writes, the splits of the reads and the interruptions on both sides, a report that
   meets no failing call reaches the parent as the child's stage and capped message. One that does still names the
   stage with a part of the message, or is lost: to the reader's error, or entirely by a failed write.
   */
  method ReportAndDrain(w: WriteEnd, r: ReadEnd, stage: ChildStage, msg: seq<U8>) returns (d: DrainResult)
    requires w.sent == []
    modifies w, r
    ensures w.failures == old(w.failures) && r.failures == old(r.failures) ==>
              d.Frame? && Decode(d.bytes) == (stage, Capped(msg))
    ensures d.Frame? ==> Decode(d.bytes).0 == stage && Decode(d.bytes).1 <= Capped(msg)
    ensures d.CleanEof? ==> w.sent == [] && w.failures != old(w.failures)
  {
    var status := w.ChildAbort(stage, msg);
    r.stream := w.sent;
    d := r.DrainErrorPipe();
    FrameRoundTrip(stage, msg);
    assert [] + Encode(stage, msg) == Encode(stage, msg);
    if d.Frame? {
      FramePrefix(stage, msg, d.bytes);
    }
  }
}
