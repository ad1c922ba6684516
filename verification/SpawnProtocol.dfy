/**
 The spawn handshake between `run_prepared` (parent) and `exec_sandboxed` (child) as two processes that interleave
 freely over the ready pipe and the close-on-exec error pipe. Each action is one system call or one setup stage;
 the environment picks outcomes, splits of reads and writes, and faults. Retried interruptions change no state
 and are not actions.
 */
module SpawnProtocol {
  import opened MachineInts
  import opened ErrorFrame
  import L = CgroupLimits

  datatype Proc = Parent | Child

  /** A pipe: bytes in flight and the processes that hold each end open. */
  datatype Pipe = Pipe(queue: seq<U8>, writers: set<Proc>, readers: set<Proc>) {
    function CloseWriter(p: Proc): Pipe { this.(writers := writers - {p}) }
    function CloseReader(p: Proc): Pipe { this.(readers := readers - {p}) }
  }

  const PIPE_CAPACITY := 65536
  const READ_BUF := 4096

  /** The setup stages this spawn will run, in order, and its cgroup configuration. */
  datatype Config = Config(stages: seq<ChildStage>, limits: L.LimitConfig)

  datatype ParentPc =
    | CloseReadyRead | CloseErrorWrite | WriteMaps | SetLimits | WriteReady | CloseReady
    | FirstRead | MoreReads(frame: seq<U8>) | KillReported(frame: seq<U8>)
    | AbortClose | AbortKill
    | Spawned | Reported(frame: seq<U8>) | Aborted

  datatype ChildPc =
    | CloseReadyWrite | CloseErrorRead | AwaitReady
    | Setup(stage: nat) | Reporting(rest: seq<U8>) | CloseReported
    | Committed | Running | Exited(code: int) | Killed

  /** Departures from the assumed environment. */
  datatype Fault = ChildKilled | ReadyReadInterrupted | ReportWriteFailed | ErrorReadFailed

  datatype Report = NoReport | SetupFailed(stage: ChildStage, msg: seq<U8>)

  datatype LimitRecord = NotSet | LimitsSet(env: L.CgroupEnv, result: L.ConfigureResult)

  /** Program counters, pipes, and the history that the properties speak of. */
  datatype State = State(
    parent: ParentPc,
    child: ChildPc,
    ready: Pipe,
    error: Pipe,
    maps: bool,             // uid/gid maps written
    limits: LimitRecord,    // outcome of the cgroup step
    sent: bool,             // ready byte written
    released: bool,         // child got past the ready read
    report: Report,         // setup failure the child ran into
    written: seq<U8>,       // all bytes the child put into the error pipe
    faults: set<Fault>)

  function Start(): State {
    State(CloseReadyRead, CloseReadyWrite,
          Pipe([], {Parent, Child}, {Parent, Child}), Pipe([], {Parent, Child}, {Parent, Child}),
          false, NotSet, false, false, NoReport, [], {})
  }

  predicate ParentEnded(pc: ParentPc) {
    pc.Spawned? || pc.Reported? || pc.Aborted?
  }

  predicate ChildEnded(pc: ChildPc) {
    pc.Running? || pc.Exited? || pc.Killed?
  }

  /** A process that ends or execs leaves both pipes. */
  function WithoutChild(s: State, pc: ChildPc): State {
    s.(child := pc,
       ready := s.ready.CloseWriter(Child).CloseReader(Child),
       error := s.error.CloseWriter(Child).CloseReader(Child))
  }

  // ----- the parent -----

  datatype ParentAction =
    | ClosesReadyRead(ok: bool) | ClosesErrorWrite(ok: bool) | WritesMaps(ok: bool)
    | ConfiguresLimits(env: L.CgroupEnv, result: L.ConfigureResult)
    | WritesReady(ok: bool) | ClosesReady(ok: bool)
    | Reads(n: nat) | ReadsEof | ReadFails
    | AbortCloses | Kills

  predicate InDrain(pc: ParentPc) {
    pc.FirstRead? || pc.MoreReads?
  }

  ghost predicate ParentEnabled(c: Config, s: State, a: ParentAction) {
    match a
    case ClosesReadyRead(_) => s.parent.CloseReadyRead?
    case ClosesErrorWrite(_) => s.parent.CloseErrorWrite?
    case WritesMaps(_) => s.parent.WriteMaps?
    case ConfiguresLimits(env, result) =>
      && s.parent.SetLimits?
      && L.Outcome(c.limits, env, result)
      && (!L.NeedsCgroup(c.limits) ==> env == L.CgroupEnv(false, false, {}, false))
    case WritesReady(ok) => s.parent.WriteReady? && (ok ==> s.ready.readers != {})
    case ClosesReady(_) => s.parent.CloseReady?
    case Reads(n) => InDrain(s.parent) && 0 < n <= READ_BUF && n <= |s.error.queue|
    case ReadsEof => InDrain(s.parent) && s.error.queue == [] && s.error.writers == {}
    case ReadFails => InDrain(s.parent)
    case AbortCloses => s.parent.AbortClose?
    case Kills => s.parent.KillReported? || s.parent.AbortKill?
  }

  /** `run_prepared` returns: its error-pipe read end is dropped. */
  function ParentReturns(s: State, pc: ParentPc): State {
    s.(parent := pc, error := s.error.CloseReader(Parent))
  }

  /** `kill_and_reap`: a child that already ended is only reaped. */
  function KillAndReap(s: State): State {
    if s.child.Exited? || s.child.Killed? then s else WithoutChild(s, Killed)
  }

  ghost function ParentStep(c: Config, s: State, a: ParentAction): State
    requires ParentEnabled(c, s, a)
  {
    match a
    case ClosesReadyRead(ok) =>
      s.(parent := CloseErrorWrite, ready := if ok then s.ready.CloseReader(Parent) else s.ready)
    case ClosesErrorWrite(ok) =>
      if ok then s.(parent := WriteMaps, error := s.error.CloseWriter(Parent)) else s.(parent := AbortClose)
    case WritesMaps(ok) =>
      if ok then s.(parent := SetLimits, maps := true) else s.(parent := AbortClose)
    case ConfiguresLimits(env, result) =>
      if result.Refused? then s.(parent := AbortClose)
      else s.(parent := WriteReady, limits := LimitsSet(env, result))
    case WritesReady(ok) =>
      if ok then s.(parent := CloseReady, ready := s.ready.(queue := s.ready.queue + [0]), sent := true)
      else s.(parent := AbortClose)
    case ClosesReady(ok) =>
      if ok then s.(parent := FirstRead, ready := s.ready.CloseWriter(Parent)) else s.(parent := AbortClose)
    case Reads(n) =>
      var frame := if s.parent.MoreReads? then s.parent.frame else [];
      s.(parent := MoreReads(frame + s.error.queue[..n]), error := s.error.(queue := s.error.queue[n..]))
    case ReadsEof =>
      if s.parent.FirstRead? then ParentReturns(s, Spawned) else s.(parent := KillReported(s.parent.frame))
    case ReadFails =>
      s.(parent := if s.parent.FirstRead? then AbortKill else KillReported(s.parent.frame),
         faults := s.faults + {ErrorReadFailed})
    case AbortCloses => s.(parent := AbortKill, ready := s.ready.CloseWriter(Parent))
    case Kills =>
      ParentReturns(KillAndReap(s), if s.parent.KillReported? then Reported(s.parent.frame) else Aborted)
  }

  // ----- the child -----

  datatype ChildAction =
    | ClosesInherited | ReadsReady | ReadyEof | ReadyInterrupted
    | StageOk | StageFails(msg: seq<U8>) | Writes(n: nat) | WriteFails | ClosesReported
    | Commits | Execs(ok: bool)
    | KilledFromOutside

  ghost predicate ChildEnabled(c: Config, s: State, a: ChildAction) {
    match a
    case ClosesInherited => s.child.CloseReadyWrite? || s.child.CloseErrorRead?
    case ReadsReady => s.child.AwaitReady? && s.ready.queue != []
    case ReadyEof => s.child.AwaitReady? && s.ready.queue == [] && s.ready.writers == {}
    case ReadyInterrupted => s.child.AwaitReady?
    case StageOk => s.child.Setup? && s.child.stage < |c.stages|
    case StageFails(_) => s.child.Setup? && s.child.stage < |c.stages|
    case Writes(n) =>
      && s.child.Reporting? && 0 < n <= |s.child.rest|
      && |s.error.queue| + n <= PIPE_CAPACITY && s.error.readers != {}
    case WriteFails => s.child.Reporting?
    case ClosesReported => s.child.CloseReported?
    case Commits => s.child.Setup? && s.child.stage >= |c.stages|
    case Execs(_) => s.child.Committed?
    case KilledFromOutside => !ChildEnded(s.child)
  }

  ghost function ChildStep(c: Config, s: State, a: ChildAction): State
    requires ChildEnabled(c, s, a)
  {
    match a
    case ClosesInherited =>
      if s.child.CloseReadyWrite? then s.(child := CloseErrorRead, ready := s.ready.CloseWriter(Child))
      else s.(child := AwaitReady, error := s.error.CloseReader(Child))
    case ReadsReady =>
      var s' := s.(ready := s.ready.CloseReader(Child).(queue := s.ready.queue[1..]));
      if s.ready.queue[0] == 0 then s'.(child := Setup(0), released := true) else WithoutChild(s', Exited(1))
    case ReadyEof => WithoutChild(s, Exited(1))
    case ReadyInterrupted => WithoutChild(s, Exited(1)).(faults := s.faults + {ReadyReadInterrupted})
    case StageOk => s.(child := Setup(s.child.stage + 1))
    case StageFails(msg) =>
      var stage := c.stages[s.child.stage];
      s.(child := Reporting(Encode(stage, msg)), report := SetupFailed(stage, msg))
    case Writes(n) =>
      s.(child := if n == |s.child.rest| then CloseReported else Reporting(s.child.rest[n..]),
         error := s.error.(queue := s.error.queue + s.child.rest[..n]),
         written := s.written + s.child.rest[..n])
    case WriteFails => s.(child := CloseReported, faults := s.faults + {ReportWriteFailed})
    case ClosesReported => WithoutChild(s, Exited(1))
    case Commits => s.(child := Committed, error := s.error.CloseWriter(Child))
    case Execs(ok) => WithoutChild(s, if ok then Running else Exited(127))
    case KilledFromOutside => WithoutChild(s, Killed).(faults := s.faults + {ChildKilled})
  }

  // ----- runs -----

  datatype Action = ByParent(p: ParentAction) | ByChild(ch: ChildAction)

  ghost predicate Enabled(c: Config, s: State, a: Action) {
    match a
    case ByParent(p) => ParentEnabled(c, s, p)
    case ByChild(ch) => ChildEnabled(c, s, ch)
  }

  ghost function Apply(c: Config, s: State, a: Action): State
    requires Enabled(c, s, a)
  {
    match a
    case ByParent(p) => ParentStep(c, s, p)
    case ByChild(ch) => ChildStep(c, s, ch)
  }

  datatype Reach = Reached(state: State) | Impossible

  /** The state after a run of actions from the start, if each was enabled in turn. */
  ghost function After(c: Config, run: seq<Action>): Reach {
    if run == [] then Reached(Start())
    else
      var before := After(c, run[..|run| - 1]);
      var a := run[|run| - 1];
      if before.Reached? && Enabled(c, before.state, a) then Reached(Apply(c, before.state, a)) else Impossible
  }

  // ----- the invariant -----

  /** The child has shut its error pipe on the success path. */
  predicate ChildCommitted(pc: ChildPc) {
    pc.Committed? || pc.Running? || pc == Exited(127)
  }

  /** The child can no longer write to the error pipe. */
  predicate ChildSilent(pc: ChildPc) {
    ChildEnded(pc) || pc.Committed?
  }

  /** Parent steps before the ready byte is written. */
  predicate BeforeReady(pc: ParentPc) {
    pc.CloseReadyRead? || pc.CloseErrorWrite? || pc.WriteMaps? || pc.SetLimits? || pc.WriteReady?
  }

  /** Parent steps from the write of the ready byte on, outside the abort path. */
  predicate ReadyGiven(pc: ParentPc) {
    pc.CloseReady? || pc.FirstRead? || pc.MoreReads? || pc.KillReported? || pc.Spawned? || pc.Reported?
  }

  /** What the parent has read so far. */
  function FrameOf(pc: ParentPc): seq<U8> {
    if pc.MoreReads? || pc.KillReported? || pc.Reported? then pc.frame else []
  }

  /** The limits were configured and let through. */
  ghost predicate LimitsHold(c: Config, s: State) {
    && s.limits.LimitsSet? && L.Outcome(c.limits, s.limits.env, s.limits.result) && s.limits.result.Configured?
    && (!L.NeedsCgroup(c.limits) ==> !s.limits.env.available)
  }

  /** Who holds the write end of the ready pipe, by program counter; a failed spawn has no child. */
  ghost predicate ReadyEnds(s: State) {
    && (Parent in s.ready.writers <==> BeforeReady(s.parent) || s.parent.CloseReady? || s.parent.AbortClose?)
    && (Child in s.ready.writers <==> s.child.CloseReadyWrite?)
    && (s.parent.Reported? || s.parent.Aborted? ==> s.child.Exited? || s.child.Killed?)
  }

  /** Who holds which end of the error pipe, by program counter. */
  ghost predicate ErrorEnds(s: State) {
    && (Parent in s.error.writers ==>
          || s.parent.CloseReadyRead? || s.parent.CloseErrorWrite?
          || s.parent.AbortClose? || s.parent.AbortKill? || s.parent.Aborted?)
    && (Parent in s.error.readers <==> !ParentEnded(s.parent))
    && (Child in s.error.writers <==> !ChildSilent(s.child))
  }

  /** The ready byte: written after maps and limits, consumed at most once. */
  ghost predicate ReadyInv(c: Config, s: State) {
    && (s.parent.SetLimits? || s.parent.WriteReady? || s.sent ==> s.maps)
    && (s.parent.WriteReady? || s.sent ==> LimitsHold(c, s))
    && (BeforeReady(s.parent) ==> !s.sent)
    && (ReadyGiven(s.parent) ==> s.sent)
    && s.ready.queue == (if s.sent && !s.released then [0] else [])
    && (s.released ==> s.sent)
    && (s.child.CloseReadyWrite? || s.child.CloseErrorRead? || s.child.AwaitReady? ==> !s.released)
    && (s.child.Setup? || s.child.Reporting? || s.child.CloseReported? || ChildCommitted(s.child) ==> s.released)
  }

  /** The error pipe: what the child wrote is what the parent has read followed by what is queued. */
  ghost predicate ErrorInv(s: State) {
    && s.written == FrameOf(s.parent) + s.error.queue
    && (s.parent.MoreReads? || s.parent.KillReported? || s.parent.Reported? ==> s.parent.frame != [])
    && ((s.parent.KillReported? || s.parent.Reported?) && ErrorReadFailed !in s.faults ==>
          s.error.queue == [] && ChildSilent(s.child))
    && (s.parent.Spawned? ==> s.written == [] && ChildSilent(s.child))
  }

  /** What the child has written belongs to the frame of its report. */
  ghost predicate ReportInv(s: State) {
    && (s.report.NoReport? ==> s.written == [])
    && (s.report.SetupFailed? ==> s.written <= Encode(s.report.stage, s.report.msg))
    && (s.child.Reporting? ==>
          && s.report.SetupFailed? && s.child.rest != []
          && s.written + s.child.rest == Encode(s.report.stage, s.report.msg))
    && (s.child.CloseReported? ==> s.report.SetupFailed?)
    && (s.report.SetupFailed? ==>
          s.child.Reporting? || s.child.CloseReported? || s.child == Exited(1) || s.child.Killed?)
  }

  /** What the absence of faults adds. */
  ghost predicate FaultFreeInv(s: State) {
    s.faults == {} ==>
      && (s.report.SetupFailed? && (s.child.CloseReported? || s.child == Exited(1)) ==>
            s.written == Encode(s.report.stage, s.report.msg))
      && (s.child == Exited(1) && s.report.NoReport? ==> !s.sent && (s.parent.AbortKill? || s.parent.Aborted?))
      && (s.child.Killed? ==> s.parent.Reported? || s.parent.Aborted?)
      && (s.child.Exited? ==> s.child.code == 1 || s.child.code == 127)
      && (s.parent.KillReported? || s.parent.Reported? ==>
            s.report.SetupFailed? && s.parent.frame == Encode(s.report.stage, s.report.msg))
  }

  /** Where each fault leaves its process. */
  ghost predicate FaultInv(s: State) {
    && (ChildKilled in s.faults ==> s.child.Killed?)
    && (ReadyReadInterrupted in s.faults ==> s.child == Exited(1))
    && (ReportWriteFailed in s.faults ==> s.child.CloseReported? || s.child == Exited(1) || s.child.Killed?)
    && (ErrorReadFailed in s.faults ==>
          s.parent.AbortKill? || s.parent.KillReported? || s.parent.Reported? || s.parent.Aborted?)
  }

  ghost predicate Inv(c: Config, s: State) {
    && ReadyEnds(s) && ErrorEnds(s) && ReadyInv(c, s) && ErrorInv(s) && ReportInv(s)
    && FaultFreeInv(s) && FaultInv(s)
  }

  lemma {:induction false} ParentKeepsReadyEnds(c: Config, s: State, a: ParentAction)
    requires ReadyEnds(s) && ParentEnabled(c, s, a)
    ensures ReadyEnds(ParentStep(c, s, a))
  {
  }

  lemma {:induction false} ParentKeepsErrorEnds(c: Config, s: State, a: ParentAction)
    requires ErrorEnds(s) && ParentEnabled(c, s, a)
    ensures ErrorEnds(ParentStep(c, s, a))
  {
  }

  lemma {:induction false} ParentKeepsReady(c: Config, s: State, a: ParentAction)
    requires ReadyInv(c, s) && ParentEnabled(c, s, a)
    ensures ReadyInv(c, ParentStep(c, s, a))
  {
  }

  lemma {:induction false} SplitQueue(frame: seq<U8>, queue: seq<U8>, n: nat)
    requires n <= |queue|
    ensures frame + queue == frame + queue[..n] + queue[n..]
  {
    assert queue == queue[..n] + queue[n..];
  }

  lemma {:induction false} ReadKeepsError(c: Config, s: State, n: nat)
    requires ErrorInv(s) && ParentEnabled(c, s, Reads(n))
    ensures ErrorInv(ParentStep(c, s, Reads(n)))
  {
    SplitQueue(FrameOf(s.parent), s.error.queue, n);
    var s' := ParentStep(c, s, Reads(n));
    assert s'.parent == MoreReads(FrameOf(s.parent) + s.error.queue[..n]);
    assert s'.written == s.written == s'.parent.frame + s'.error.queue;
  }

  lemma {:induction false} ParentKeepsError(c: Config, s: State, a: ParentAction)
    requires ErrorEnds(s) && ErrorInv(s) && ParentEnabled(c, s, a)
    ensures ErrorInv(ParentStep(c, s, a))
  {
    if a.Reads? {
      ReadKeepsError(c, s, a.n);
    } else {
      var s' := ParentStep(c, s, a);
      assert s'.written == s.written && s'.error.queue == s.error.queue && FrameOf(s'.parent) == FrameOf(s.parent);
    }
  }

  lemma {:induction false} ParentKeepsReport(c: Config, s: State, a: ParentAction)
    requires ReportInv(s) && ParentEnabled(c, s, a)
    ensures ReportInv(ParentStep(c, s, a))
  {
    var s' := ParentStep(c, s, a);
    assert s'.written == s.written && s'.report == s.report && (s'.child == s.child || s'.child == Killed);
  }

  lemma {:induction false} ParentKeepsFaultFree(c: Config, s: State, a: ParentAction)
    requires Inv(c, s) && ParentEnabled(c, s, a)
    ensures FaultFreeInv(ParentStep(c, s, a))
  {
  }

  lemma {:induction false} ParentKeepsFault(c: Config, s: State, a: ParentAction)
    requires FaultInv(s) && ParentEnabled(c, s, a)
    ensures FaultInv(ParentStep(c, s, a))
  {
    var s' := ParentStep(c, s, a);
    assert s'.child == s.child || (s'.child == Killed && !s.child.Exited?);
  }

  lemma {:induction false} ChildKeepsReadyEnds(c: Config, s: State, a: ChildAction)
    requires ReadyEnds(s) && ChildEnabled(c, s, a)
    ensures ReadyEnds(ChildStep(c, s, a))
  {
  }

  lemma {:induction false} ChildKeepsErrorEnds(c: Config, s: State, a: ChildAction)
    requires ErrorEnds(s) && ChildEnabled(c, s, a)
    ensures ErrorEnds(ChildStep(c, s, a))
  {
  }

  lemma {:induction false} ChildKeepsReady(c: Config, s: State, a: ChildAction)
    requires ReadyInv(c, s) && ChildEnabled(c, s, a)
    ensures ReadyInv(c, ChildStep(c, s, a))
  {
  }

  lemma {:induction false} ChildKeepsError(c: Config, s: State, a: ChildAction)
    requires ErrorInv(s) && ChildEnabled(c, s, a)
    ensures ErrorInv(ChildStep(c, s, a))
  {
  }

  /** A write moves bytes from the rest of the frame to the written part. */
  lemma {:induction false} WriteKeepsReport(c: Config, s: State, n: nat)
    requires ReportInv(s) && ChildEnabled(c, s, Writes(n))
    ensures ReportInv(ChildStep(c, s, Writes(n)))
    ensures n == |s.child.rest| ==> ChildStep(c, s, Writes(n)).written == Encode(s.report.stage, s.report.msg)
  {
    var rest, frame := s.child.rest, Encode(s.report.stage, s.report.msg);
    assert s.written + rest[..n] + rest[n..] == s.written + rest == frame;
    assert s.written + rest[..n] <= frame;
    if n == |rest| {
      assert s.written + rest[..n] == frame;
    }
  }

  lemma {:induction false} ChildKeepsReport(c: Config, s: State, a: ChildAction)
    requires ReadyInv(c, s) && ReportInv(s) && ChildEnabled(c, s, a)
    ensures ReportInv(ChildStep(c, s, a))
  {
    if a.Writes? {
      WriteKeepsReport(c, s, a.n);
    } else {
      assert ChildStep(c, s, a).written == s.written;
    }
  }

  lemma {:induction false} ChildKeepsFaultFree(c: Config, s: State, a: ChildAction)
    requires Inv(c, s) && ChildEnabled(c, s, a)
    ensures FaultFreeInv(ChildStep(c, s, a))
  {
    if a.Writes? {
      WriteKeepsReport(c, s, a.n);
    }
  }

  lemma {:induction false} ChildKeepsFault(c: Config, s: State, a: ChildAction)
    requires FaultInv(s) && ChildEnabled(c, s, a)
    ensures FaultInv(ChildStep(c, s, a))
  {
  }

  /** Every action of either process keeps the invariant. */
  lemma {:induction false} StepKeepsInv(c: Config, s: State, a: Action)
    requires Inv(c, s) && Enabled(c, s, a)
    ensures Inv(c, Apply(c, s, a))
  {
    match a
    case ByParent(p) =>
      ParentKeepsReadyEnds(c, s, p);
      ParentKeepsErrorEnds(c, s, p);
      ParentKeepsReady(c, s, p);
      ParentKeepsError(c, s, p);
      ParentKeepsReport(c, s, p);
      ParentKeepsFaultFree(c, s, p);
      ParentKeepsFault(c, s, p);
    case ByChild(ch) =>
      ChildKeepsReadyEnds(c, s, ch);
      ChildKeepsErrorEnds(c, s, ch);
      ChildKeepsReady(c, s, ch);
      ChildKeepsError(c, s, ch);
      ChildKeepsReport(c, s, ch);
      ChildKeepsFaultFree(c, s, ch);
      ChildKeepsFault(c, s, ch);
  }

  /** Every run keeps the invariant. */
  lemma {:induction false} RunKeepsInv(c: Config, run: seq<Action>)
    requires After(c, run).Reached?
    ensures Inv(c, After(c, run).state)
  {
    if run == [] {
    } else {
      var before := run[..|run| - 1];
      RunKeepsInv(c, before);
      StepKeepsInv(c, After(c, before).state, run[|run| - 1]);
    }
  }

  // ----- what the state owes to the run -----

  /** The setup stages that went through in a run. */
  ghost function StagesDone(run: seq<Action>): nat {
    if run == [] then 0
    else StagesDone(run[..|run| - 1]) + if run[|run| - 1] == ByChild(StageOk) then 1 else 0
  }

  /** The child's progress and its report are those of the `done` stages that went through. */
  ghost predicate SetupHistory(c: Config, done: nat, s: State) {
    && done <= |c.stages|
    && (!s.released ==> done == 0)
    && (s.child.Setup? ==> s.child.stage == done)
    && (ChildCommitted(s.child) ==> done == |c.stages|)
    && (s.report.SetupFailed? ==> done < |c.stages| && s.report.stage == c.stages[done])
  }

  /** Each milestone was set by the action that stands for it, with the outcome that the milestone claims. */
  ghost predicate MilestoneHistory(run: seq<Action>, s: State) {
    && (s.maps ==> ByParent(WritesMaps(true)) in run)
    && (s.limits.LimitsSet? ==> ByParent(ConfiguresLimits(s.limits.env, s.limits.result)) in run)
    && (s.sent ==> ByParent(WritesReady(true)) in run)
    && (s.released ==> ByChild(ReadsReady) in run)
    && (s.report.SetupFailed? ==> ByChild(StageFails(s.report.msg)) in run)
  }

  /** How the two processes ended. */
  ghost predicate EndHistory(run: seq<Action>, s: State) {
    && (s.child.Running? ==> ByChild(Execs(true)) in run)
    && (s.child == Exited(127) ==> ByChild(Execs(false)) in run)
    && (s.child.Killed? ==> ByChild(KilledFromOutside) in run || ByParent(Kills) in run)
    && (s.parent.Spawned? ==> ByParent(ReadsEof) in run)
  }

  /** A step of the parent that fails for good. */
  predicate ParentFails(a: Action) {
    a.ByParent? &&
    match a.p
    case ClosesErrorWrite(ok) => !ok
    case WritesMaps(ok) => !ok
    case ConfiguresLimits(_, result) => result.Refused?
    case WritesReady(ok) => !ok
    case ClosesReady(ok) => !ok
    case _ => false
  }

  ghost predicate AllRegular(run: seq<Action>) {
    forall a :: a in run ==> Regular(a)
  }

  ghost predicate SomeParentFailure(run: seq<Action>) {
    exists a :: a in run && ParentFails(a)
  }

  lemma {:induction false} LongerRun(before: seq<Action>, run: seq<Action>, a: Action)
    requires run == before + [a]
    ensures AllRegular(run) <==> AllRegular(before) && Regular(a)
    ensures SomeParentFailure(run) <==> SomeParentFailure(before) || ParentFails(a)
    ensures ByParent(ReadFails) in run <==> ByParent(ReadFails) in before || a == ByParent(ReadFails)
  {
    assert forall x :: x in run <==> x in before || x == a;
  }

  /** A fault is recorded iff one happened; the abort path is entered on a failed step, always and only then. */
  ghost predicate FailureHistory(run: seq<Action>, s: State) {
    && (s.faults == {} <==> AllRegular(run))
    && (SomeParentFailure(run) ==> s.parent.AbortClose? || Aborting(s.parent))
    && (s.parent.AbortClose? ==> SomeParentFailure(run))
    && (Aborting(s.parent) ==> ByParent(ReadFails) in run || SomeParentFailure(run))
  }

  lemma {:induction false} ParentKeepsSetupHistory(c: Config, done: nat, s: State, a: ParentAction)
    requires SetupHistory(c, done, s) && ParentEnabled(c, s, a)
    ensures SetupHistory(c, done, ParentStep(c, s, a))
  {
    var s' := ParentStep(c, s, a);
    assert s'.released == s.released && s'.report == s.report && (s'.child == s.child || s'.child == Killed);
  }

  lemma {:induction false} ChildKeepsSetupHistory(c: Config, done: nat, s: State, a: ChildAction)
    requires ReadyInv(c, s) && ReportInv(s) && SetupHistory(c, done, s) && ChildEnabled(c, s, a)
    ensures SetupHistory(c, done + if a.StageOk? then 1 else 0, ChildStep(c, s, a))
  {
  }

  /** What an action has left in the run stays there. */
  lemma {:induction false} StaysInRun(before: seq<Action>, run: seq<Action>, a: Action)
    requires run == before + [a]
    ensures forall x :: x in before ==> x in run
    ensures a in run
  {
  }

  lemma {:induction false} ParentKeepsMilestones(c: Config, before: seq<Action>, run: seq<Action>, s: State,
                                                 a: ParentAction)
    requires MilestoneHistory(before, s) && ParentEnabled(c, s, a) && run == before + [ByParent(a)]
    ensures MilestoneHistory(run, ParentStep(c, s, a))
  {
    StaysInRun(before, run, ByParent(a));
  }

  lemma {:induction false} ChildKeepsMilestones(c: Config, before: seq<Action>, run: seq<Action>, s: State,
                                                a: ChildAction)
    requires MilestoneHistory(before, s) && ChildEnabled(c, s, a) && run == before + [ByChild(a)]
    ensures MilestoneHistory(run, ChildStep(c, s, a))
  {
    StaysInRun(before, run, ByChild(a));
  }

  lemma {:induction false} ParentKeepsEnds(c: Config, before: seq<Action>, run: seq<Action>, s: State, a: ParentAction)
    requires EndHistory(before, s) && ParentEnabled(c, s, a) && run == before + [ByParent(a)]
    ensures EndHistory(run, ParentStep(c, s, a))
  {
    StaysInRun(before, run, ByParent(a));
  }

  lemma {:induction false} ChildKeepsEnds(c: Config, before: seq<Action>, run: seq<Action>, s: State, a: ChildAction)
    requires EndHistory(before, s) && ChildEnabled(c, s, a) && run == before + [ByChild(a)]
    ensures EndHistory(run, ChildStep(c, s, a))
  {
    StaysInRun(before, run, ByChild(a));
  }

  lemma {:induction false} ParentKeepsFailures(c: Config, before: seq<Action>, run: seq<Action>, s: State,
                                               a: ParentAction)
    requires FailureHistory(before, s) && ParentEnabled(c, s, a) && run == before + [ByParent(a)]
    ensures FailureHistory(run, ParentStep(c, s, a))
  {
    LongerRun(before, run, ByParent(a));
    assert a.ReadFails? ==> ErrorReadFailed in ParentStep(c, s, a).faults;
  }

  lemma {:induction false} ChildKeepsFailures(c: Config, before: seq<Action>, run: seq<Action>, s: State,
                                              a: ChildAction)
    requires FailureHistory(before, s) && ChildEnabled(c, s, a) && run == before + [ByChild(a)]
    ensures FailureHistory(run, ChildStep(c, s, a))
  {
    LongerRun(before, run, ByChild(a));
    var faults := ChildStep(c, s, a).faults;
    assert a.ReadyInterrupted? ==> ReadyReadInterrupted in faults;
    assert a.WriteFails? ==> ReportWriteFailed in faults;
    assert a.KilledFromOutside? ==> ChildKilled in faults;
  }

  ghost predicate History(c: Config, run: seq<Action>, s: State) {
    SetupHistory(c, StagesDone(run), s) && MilestoneHistory(run, s) && EndHistory(run, s) && FailureHistory(run, s)
  }

  lemma {:induction false} ParentKeepsHistory(c: Config, before: seq<Action>, run: seq<Action>, s: State,
                                              a: ParentAction)
    requires History(c, before, s) && ParentEnabled(c, s, a) && run == before + [ByParent(a)]
    ensures History(c, run, ParentStep(c, s, a))
  {
    assert run[..|run| - 1] == before;
    ParentKeepsSetupHistory(c, StagesDone(before), s, a);
    ParentKeepsMilestones(c, before, run, s, a);
    ParentKeepsEnds(c, before, run, s, a);
    ParentKeepsFailures(c, before, run, s, a);
  }

  lemma {:induction false} ChildKeepsHistory(c: Config, before: seq<Action>, run: seq<Action>, s: State,
                                             a: ChildAction)
    requires ReadyInv(c, s) && ReportInv(s)
    requires History(c, before, s) && ChildEnabled(c, s, a) && run == before + [ByChild(a)]
    ensures History(c, run, ChildStep(c, s, a))
  {
    assert run[..|run| - 1] == before;
    ChildKeepsSetupHistory(c, StagesDone(before), s, a);
    ChildKeepsMilestones(c, before, run, s, a);
    ChildKeepsEnds(c, before, run, s, a);
    ChildKeepsFailures(c, before, run, s, a);
  }

  lemma {:induction false} StartHasHistory(c: Config)
    ensures History(c, [], Start())
  {
  }

  lemma {:induction false} StepKeepsHistory(c: Config, before: seq<Action>, run: seq<Action>, s: State, a: Action)
    requires Inv(c, s) && History(c, before, s) && Enabled(c, s, a) && run == before + [a]
    ensures History(c, run, Apply(c, s, a))
  {
    match a
    case ByParent(p) => ParentKeepsHistory(c, before, run, s, p);
    case ByChild(ch) => ChildKeepsHistory(c, before, run, s, ch);
  }

  lemma {:induction false} LastStepKeepsHistory(c: Config, run: seq<Action>)
    requires run != [] && After(c, run).Reached?
    requires History(c, run[..|run| - 1], After(c, run[..|run| - 1]).state)
    ensures History(c, run, After(c, run).state)
  {
    var before, a := run[..|run| - 1], run[|run| - 1];
    var s := After(c, before).state;
    RunKeepsInv(c, before);
    assert run == before + [a];
    StepKeepsHistory(c, before, run, s, a);
    assert After(c, run).state == Apply(c, s, a);
  }

  /** In every run the state records what happened. */
  lemma {:induction false} RunKeepsHistory(c: Config, run: seq<Action>)
    requires After(c, run).Reached?
    ensures History(c, run, After(c, run).state)
  {
    if run == [] {
      StartHasHistory(c);
    } else {
      RunKeepsHistory(c, run[..|run| - 1]);
      LastStepKeepsHistory(c, run);
    }
  }

  /** Every beginning of a run is a run, and its next action was enabled there. */
  lemma {:induction false} PrefixReached(c: Config, run: seq<Action>, k: nat)
    requires After(c, run).Reached? && k < |run|
    ensures After(c, run[..k]).Reached? && Enabled(c, After(c, run[..k]).state, run[k])
  {
    var before := run[..|run| - 1];
    if k == |before| {
    } else {
      PrefixReached(c, before, k);
      assert before[..k] == run[..k] && before[k] == run[k];
    }
  }

  // ----- safety -----

  /** The maps and an outcome of the limits that lets the spawn go on are in the run. */
  ghost predicate MapsAndLimitsIn(c: Config, run: seq<Action>) {
    && ByParent(WritesMaps(true)) in run
    && exists env, result :: ByParent(ConfiguresLimits(env, result)) in run
                             && L.Outcome(c.limits, env, result) && result.Configured?
  }

  lemma {:induction false} ReadyStateHasMapsAndLimits(c: Config, run: seq<Action>, s: State)
    requires ReadyInv(c, s) && MilestoneHistory(run, s) && s.parent.WriteReady?
    ensures MapsAndLimitsIn(c, run)
  {
    assert ByParent(ConfiguresLimits(s.limits.env, s.limits.result)) in run;
  }

  /**
   The order of a spawn, in every run: the ready byte is written after the maps and after limits that were let through,
   the child reads it after it was written, and commits after running all its stages.
   */
  lemma {:induction false} SpawnOrder(c: Config, run: seq<Action>, k: nat)
    requires After(c, run).Reached? && k < |run|
    ensures run[k] == ByParent(WritesReady(true)) ==> MapsAndLimitsIn(c, run[..k])
    ensures run[k] == ByChild(ReadsReady) ==> ByParent(WritesReady(true)) in run[..k]
    ensures run[k] == ByChild(Commits) ==> StagesDone(run[..k]) == |c.stages|
  {
    PrefixReached(c, run, k);
    RunKeepsInv(c, run[..k]);
    RunKeepsHistory(c, run[..k]);
    if run[k] == ByParent(WritesReady(true)) {
      ReadyStateHasMapsAndLimits(c, run[..k], After(c, run[..k]).state);
    }
  }

  /**
   Fail-closed release: in every run, faults included, a child past its ready read has its id maps written, every
   required limit written with the child attached, and every configured limit evaluated.
   */
  lemma {:induction false} FailClosedRelease(c: Config, run: seq<Action>, limit: L.Limit)
    requires After(c, run).Reached? && After(c, run).state.released
    ensures After(c, run).state.maps && LimitsHold(c, After(c, run).state)
    ensures L.Required(c.limits, limit) ==> L.InForce(After(c, run).state.limits.result.cgroup, limit)
    ensures limit in c.limits.configured ==>
              After(c, run).state.limits.result.diagnostics.Status(limit) in {L.Enforced, L.NotEnforced}
    ensures c.limits.configured == {} ==> After(c, run).state.limits.result.cgroup == L.NoCgroup
    ensures ByParent(WritesMaps(true)) in run && ByParent(WritesReady(true)) in run
    ensures var limits := After(c, run).state.limits; ByParent(ConfiguresLimits(limits.env, limits.result)) in run
  {
    RunKeepsInv(c, run);
    RunKeepsHistory(c, run);
    var s := After(c, run).state;
    L.NeedsCgroupExactly(c.limits);
    L.LetThroughIsEnforced(c.limits, s.limits.env, s.limits.result, limit);
  }

  /**
   The drain in every run, faults included: the parent passes only when the child wrote nothing and can write no
   more; it reports a non-empty prefix of what the child wrote, all of it unless one of its own reads failed.
   */
  lemma {:induction false} DrainReadsWhatWasWritten(c: Config, run: seq<Action>)
    requires After(c, run).Reached?
    ensures var s := After(c, run).state; s.parent.Spawned? ==> s.written == [] && Child !in s.error.writers
    ensures var s := After(c, run).state; s.parent.Reported? ==> 0 < |s.parent.frame| && s.parent.frame <= s.written
    ensures var s := After(c, run).state;
            s.parent.Reported? && ErrorReadFailed !in s.faults ==> s.parent.frame == s.written
  {
    RunKeepsInv(c, run);
  }

  /** A fault behind a pass hides a child that did not commit. */
  lemma {:induction false} FaultMeansNotCommitted(c: Config, s: State)
    requires Inv(c, s) && s.parent.Spawned? && s.faults != {}
    ensures !ChildCommitted(s.child)
  {
    var f :| f in s.faults;
    match f
    case ChildKilled =>
    case ReadyReadInterrupted =>
    case ReportWriteFailed =>
    case ErrorReadFailed =>
  }

  /**
   Spawn outcome, in every run that ends the drain: the child closed the error pipe without a frame and went on to exec
   if and only if the parent passed and no fault occurred. Without faults a run that does not pass decodes the child's
   failing stage and capped message; `ReportedExactly` says what remains of that with faults.
   */
  lemma {:induction false} SpawnOutcome(c: Config, run: seq<Action>)
    requires After(c, run).Reached?
    requires After(c, run).state.parent.Spawned? || After(c, run).state.parent.Reported?
    ensures var s := After(c, run).state; ChildCommitted(s.child) <==> s.parent.Spawned? && s.faults == {}
    ensures ChildCommitted(After(c, run).state.child) ==> StagesDone(run) == |c.stages|
    ensures After(c, run).state.faults == {} <==> AllRegular(run)
    ensures !SomeParentFailure(run)
    ensures var s := After(c, run).state; s.faults == {} ==> (s.parent.Spawned? <==> s.report.NoReport?)
    ensures var s := After(c, run).state;
            s.faults == {} && s.parent.Reported? ==> Decode(s.parent.frame) == (s.report.stage, Capped(s.report.msg))
  {
    RunKeepsInv(c, run);
    RunKeepsHistory(c, run);
    var s := After(c, run).state;
    if s.parent.Spawned? && s.faults != {} {
      FaultMeansNotCommitted(c, s);
    }
    if s.parent.Reported? && s.faults == {} {
      FrameRoundTrip(s.report.stage, s.report.msg);
    }
  }

  // ----- the report in the presence of faults -----

  /** A fault that strikes while the report is on its way: still being written, or written and not yet read. */
  ghost predicate Cuts(s: State, a: Action) {
    && !Regular(a)
    && (s.child.Reporting? || (a == ByParent(ReadFails) && s.error.queue != []))
  }

  /** Some fault of the run struck while the report was on its way. */
  ghost predicate ReportCut(c: Config, run: seq<Action>)
    requires After(c, run).Reached?
  {
    if run == [] then false
    else
      var before := run[..|run| - 1];
      ReportCut(c, before) || Cuts(After(c, before).state, run[|run| - 1])
  }

  /** The whole frame of the child's report. */
  ghost function WholeFrame(s: State): seq<U8>
    requires s.report.SetupFailed?
  {
    Encode(s.report.stage, s.report.msg)
  }

  predicate Aborting(pc: ParentPc) {
    pc.AbortKill? || pc.Aborted?
  }

  /** Without a cut, a report that is no longer being written was written whole, and what is reported is all of it. */
  ghost predicate UncutInv(s: State) {
    && (s.report.SetupFailed? && !s.child.Reporting? && !s.parent.Aborted? ==> s.written == WholeFrame(s))
    && (s.parent.KillReported? || s.parent.Reported? ==>
          s.report.SetupFailed? && !s.child.Reporting? && s.parent.frame == WholeFrame(s))
  }

  /** After a cut, the written or the reported part stays short of the whole frame, or the spawn aborts. */
  ghost predicate CutInv(s: State) {
    || Aborting(s.parent)
    || (s.report.SetupFailed? && !s.child.Reporting? && s.written != WholeFrame(s))
    || (s.report.SetupFailed? && (s.parent.KillReported? || s.parent.Reported?) && s.parent.frame != WholeFrame(s))
  }

  lemma {:induction false} ParentKeepsUncut(c: Config, s: State, a: ParentAction)
    requires Inv(c, s) && UncutInv(s) && ParentEnabled(c, s, a) && !Cuts(s, ByParent(a))
    ensures UncutInv(ParentStep(c, s, a))
  {
  }

  lemma {:induction false} ChildKeepsUncut(c: Config, s: State, a: ChildAction)
    requires Inv(c, s) && UncutInv(s) && ChildEnabled(c, s, a) && !Cuts(s, ByChild(a))
    ensures UncutInv(ChildStep(c, s, a))
  {
    if a.Writes? {
      WriteKeepsReport(c, s, a.n);
    }
  }

  lemma {:induction false} ParentKeepsCut(c: Config, s: State, a: ParentAction)
    requires Inv(c, s) && ParentEnabled(c, s, a) && (CutInv(s) || Cuts(s, ByParent(a)))
    ensures CutInv(ParentStep(c, s, a))
  {
  }

  lemma {:induction false} ChildKeepsCut(c: Config, s: State, a: ChildAction)
    requires Inv(c, s) && ChildEnabled(c, s, a) && (CutInv(s) || Cuts(s, ByChild(a)))
    ensures CutInv(ChildStep(c, s, a))
  {
  }

  lemma {:induction false} RunKeepsCut(c: Config, run: seq<Action>)
    requires After(c, run).Reached?
    ensures if ReportCut(c, run) then CutInv(After(c, run).state) else UncutInv(After(c, run).state)
  {
    if run == [] {
    } else {
      var before, a := run[..|run| - 1], run[|run| - 1];
      RunKeepsInv(c, before);
      RunKeepsCut(c, before);
      var s := After(c, before).state;
      match a
      case ByParent(p) =>
        if ReportCut(c, run) { ParentKeepsCut(c, s, p); } else { ParentKeepsUncut(c, s, p); }
      case ByChild(ch) =>
        if ReportCut(c, run) { ChildKeepsCut(c, s, ch); } else { ChildKeepsUncut(c, s, ch); }
    }
  }

  /**
   What a reported failure says, in every run: always the child's failing stage and a prefix of its capped message, and
   the whole message if no fault struck while the report was on its way. The frame is a proper prefix of the
   child's report if and only if one did.
   */
  lemma {:induction false} ReportedExactly(c: Config, run: seq<Action>)
    requires After(c, run).Reached? && After(c, run).state.parent.Reported?
    ensures var s := After(c, run).state;
            && s.report.SetupFailed? && s.parent.frame <= WholeFrame(s)
            && (s.parent.frame < WholeFrame(s) <==> ReportCut(c, run))
            && StagesDone(run) < |c.stages| && ByChild(StageFails(s.report.msg)) in run
            && Decode(s.parent.frame).0 == s.report.stage == c.stages[StagesDone(run)]
            && Decode(s.parent.frame).1 <= Capped(s.report.msg)
            && (!ReportCut(c, run) ==> Decode(s.parent.frame).1 == Capped(s.report.msg))
  {
    RunKeepsInv(c, run);
    RunKeepsHistory(c, run);
    RunKeepsCut(c, run);
    var s := After(c, run).state;
    FrameRoundTrip(s.report.stage, s.report.msg);
    FramePrefix(s.report.stage, s.report.msg, s.parent.frame);
  }

  /** A spawn that returns an error leaves no child running, in every run. */
  lemma {:induction false} FailedSpawnLeavesNoChild(c: Config, run: seq<Action>)
    requires After(c, run).Reached?
    ensures var s := After(c, run).state; s.parent.Reported? || s.parent.Aborted? ==> s.child.Exited? || s.child.Killed?
  {
    RunKeepsInv(c, run);
  }

  // ----- progress -----

  /** Actions of a well-behaved environment. */
  predicate Regular(a: Action) {
    match a
    case ByParent(p) => !p.ReadFails?
    case ByChild(ch) => !ch.ReadyInterrupted? && !ch.WriteFails? && !ch.KilledFromOutside?
  }

  predicate Final(s: State) {
    ParentEnded(s.parent) && ChildEnded(s.child)
  }

  /** The parent waits on the error pipe: it is in the drain with nothing to read and a writer left. */
  ghost predicate ParentWaits(s: State) {
    InDrain(s.parent) && s.error.queue == [] && s.error.writers != {}
  }

  /** The child waits on the ready pipe. */
  ghost predicate ChildWaits(s: State) {
    s.child.AwaitReady? && s.ready.queue == [] && s.ready.writers != {}
  }

  /** A parent that has not returned and does not wait on the child can act. */
  lemma {:induction false} ParentCanAct(c: Config, s: State) returns (a: ParentAction)
    requires Inv(c, s) && !ParentEnded(s.parent) && !ParentWaits(s)
    ensures ParentEnabled(c, s, a) && !a.ReadFails?
  {
    match s.parent
    case CloseReadyRead => a := ClosesReadyRead(true);
    case CloseErrorWrite => a := ClosesErrorWrite(true);
    case WriteMaps => a := WritesMaps(true);
    case SetLimits => a := SomeLimitsOutcome(c, s);
    case WriteReady => a := WritesReady(false);
    case CloseReady => a := ClosesReady(true);
    case KillReported(_) => a := Kills;
    case AbortClose => a := AbortCloses;
    case AbortKill => a := Kills;
    case FirstRead => a := if s.error.queue != [] then Reads(1) else ReadsEof;
    case MoreReads(_) => a := if s.error.queue != [] then Reads(1) else ReadsEof;
  }

  /** Every configuration has an outcome when the cgroup filesystem is missing. */
  lemma {:induction false} SomeLimitsOutcome(c: Config, s: State) returns (a: ParentAction)
    requires s.parent.SetLimits?
    ensures ParentEnabled(c, s, a) && a.ConfiguresLimits?
  {
    var env := L.CgroupEnv(false, false, {}, false);
    var result := L.WithoutFilesystem(c.limits, env);
    a := ConfiguresLimits(env, result);
  }

  /** A child that has not ended and does not wait on the parent can act; its frame always fits the pipe. */
  lemma {:induction false} ChildCanAct(c: Config, s: State) returns (a: ChildAction)
    requires Inv(c, s) && !ChildEnded(s.child) && !ChildWaits(s)
    requires !ParentEnded(s.parent) || s.parent.Spawned?
    ensures ChildEnabled(c, s, a) && Regular(ByChild(a))
  {
    match s.child
    case CloseReadyWrite => a := ClosesInherited;
    case CloseErrorRead => a := ClosesInherited;
    case AwaitReady => a := if s.ready.queue != [] then ReadsReady else ReadyEof;
    case Setup(i) => a := if i < |c.stages| then StageOk else Commits;
    case Reporting(rest) =>
      FrameRoundTrip(s.report.stage, s.report.msg);
      assert |s.written| + |rest| <= PIPE_BUF;
      a := Writes(1);
    case CloseReported => a := ClosesReported;
    case Committed => a := Execs(true);
  }

  /** When the parent waits or is done, the child is not waiting for it. */
  lemma {:induction false} ChildIsAwaited(c: Config, s: State)
    requires Inv(c, s) && !Final(s) && (ParentEnded(s.parent) || ParentWaits(s))
    ensures !ChildEnded(s.child) && !ChildWaits(s)
    ensures !ParentEnded(s.parent) || s.parent.Spawned?
  {
    if ParentWaits(s) {
      var p :| p in s.error.writers;
      assert p == Child;
    }
    assert Parent !in s.ready.writers;
    if s.ready.writers != {} {
      var p :| p in s.ready.writers;
      assert p == Child;
    }
  }

  /** Neither side is ever stuck: in every reachable state of an unfinished spawn, some regular action is enabled. */
  lemma {:induction false} NeverStuck(c: Config, run: seq<Action>) returns (a: Action)
    requires After(c, run).Reached? && !Final(After(c, run).state)
    ensures Enabled(c, After(c, run).state, a) && Regular(a)
  {
    RunKeepsInv(c, run);
    var s := After(c, run).state;
    if !ParentEnded(s.parent) && !ParentWaits(s) {
      var p := ParentCanAct(c, s);
      a := ByParent(p);
    } else {
      ChildIsAwaited(c, s);
      var ch := ChildCanAct(c, s);
      a := ByChild(ch);
    }
  }

  /** Remaining work of each process; a frame byte counts twice before it is written and once while queued. */
  function ParentWork(pc: ParentPc): nat {
    match pc
    case CloseReadyRead => 12
    case CloseErrorWrite => 11
    case WriteMaps => 10
    case SetLimits => 9
    case WriteReady => 8
    case CloseReady => 7
    case FirstRead => 6
    case MoreReads(_) => 5
    case KillReported(_) => 4
    case AbortClose => 3
    case AbortKill => 2
    case _ => 0
  }

  function ChildWork(c: Config, pc: ChildPc): nat {
    match pc
    case CloseReadyWrite => 10003 + |c.stages|
    case CloseErrorRead => 10002 + |c.stages|
    case AwaitReady => 10001 + |c.stages|
    case Setup(i) => 10000 + if i < |c.stages| then |c.stages| - i else 0
    case Reporting(rest) => 2 * |rest| + 2
    case CloseReported => 1
    case Committed => 1
    case _ => 0
  }

  function Work(c: Config, s: State): nat {
    ParentWork(s.parent) + ChildWork(c, s.child) + |s.error.queue|
  }

  lemma {:induction false} ParentUsesWork(c: Config, s: State, a: ParentAction)
    requires ParentEnabled(c, s, a)
    ensures Work(c, ParentStep(c, s, a)) < Work(c, s)
  {
    var s' := ParentStep(c, s, a);
    assert s'.child == s.child || s'.child == Killed;
  }

  lemma {:induction false} ChildUsesWork(c: Config, s: State, a: ChildAction)
    requires ChildEnabled(c, s, a)
    ensures Work(c, ChildStep(c, s, a)) < Work(c, s)
  {
    assert ChildStep(c, s, a).parent == s.parent;
    if a.StageFails? {
      FrameRoundTrip(c.stages[s.child.stage], a.msg);
    }
  }

  /** Every action, regular or not, uses up work. */
  lemma {:induction false} StepUsesWork(c: Config, s: State, a: Action)
    requires Enabled(c, s, a)
    ensures Work(c, Apply(c, s, a)) < Work(c, s)
  {
    match a
    case ByParent(p) => ParentUsesWork(c, s, p);
    case ByChild(ch) => ChildUsesWork(c, s, ch);
  }

  /** Every run is finite, within a bound linear in the number of setup stages. */
  lemma {:induction false} RunsAreBounded(c: Config, run: seq<Action>)
    requires After(c, run).Reached?
    ensures |run| + Work(c, After(c, run).state) <= 10015 + |c.stages|
  {
    if run == [] {
    } else {
      var before := run[..|run| - 1];
      RunsAreBounded(c, before);
      StepUsesWork(c, After(c, before).state, run[|run| - 1]);
    }
  }

  /** So a run that cannot be continued has ended the drain or aborted, and its child has execed or is gone. */
  lemma {:induction false} MaximalRunsFinish(c: Config, run: seq<Action>)
    requires After(c, run).Reached?
    requires forall a | Regular(a) :: !Enabled(c, After(c, run).state, a)
    ensures Final(After(c, run).state)
  {
    if !Final(After(c, run).state) {
      var a := NeverStuck(c, run);
    }
  }

  // ----- why the environment assumptions are needed -----

  /** The state reached by continuing a run. */
  lemma {:induction false} Extend(c: Config, run: seq<Action>, a: Action)
    requires After(c, run).Reached? && Enabled(c, After(c, run).state, a)
    ensures After(c, run + [a]) == Reached(Apply(c, After(c, run).state, a))
  {
    assert (run + [a])[..|run|] == run;
  }

  /** A spawn without limits: the parent can get to its drain before the child does anything. */
  lemma {:induction false} ParentReachesDrain(c: Config) returns (run: seq<Action>)
    requires c.limits.configured == {}
    ensures After(c, run).Reached?
    ensures var s := After(c, run).state;
            && s.parent.FirstRead? && s.child.CloseReadyWrite?
            && s.faults == {} && s.written == [] && s.report.NoReport?
            && s.ready == Pipe([0], {Child}, {Child}) && s.error == Pipe([], {Child}, {Parent, Child})
  {
    run := [];
    Extend(c, run, ByParent(ClosesReadyRead(true)));
    run := run + [ByParent(ClosesReadyRead(true))];
    Extend(c, run, ByParent(ClosesErrorWrite(true)));
    run := run + [ByParent(ClosesErrorWrite(true))];
    Extend(c, run, ByParent(WritesMaps(true)));
    run := run + [ByParent(WritesMaps(true))];
    var env := L.CgroupEnv(false, false, {}, false);
    var result := L.Configured(L.NoCgroup, L.LimitDiagnostics(L.NotRequested, L.NotRequested, L.NotRequested));
    assert forall l :: result.diagnostics.Status(l) == L.NotRequested;
    Extend(c, run, ByParent(ConfiguresLimits(env, result)));
    run := run + [ByParent(ConfiguresLimits(env, result))];
    assert After(c, run).state.ready == Pipe([], {Child, Parent}, {Child});
    assert Child in After(c, run).state.ready.readers;
    Extend(c, run, ByParent(WritesReady(true)));
    run := run + [ByParent(WritesReady(true))];
    Extend(c, run, ByParent(ClosesReady(true)));
    run := run + [ByParent(ClosesReady(true))];
  }

  /** A child killed from outside before it commits leaves a bare end of file, which the parent takes for success. */
  lemma {:induction false} KilledChildLooksSpawned(c: Config) returns (run: seq<Action>)
    requires c.limits.configured == {}
    ensures After(c, run).Reached?
    ensures var s := After(c, run).state;
            s.parent.Spawned? && s.child.Killed? && !s.released && s.faults == {ChildKilled}
  {
    run := ParentReachesDrain(c);
    Extend(c, run, ByChild(KilledFromOutside));
    run := run + [ByChild(KilledFromOutside)];
    assert After(c, run).state.error.writers == {};
    RunKeepsInv(c, run);
    Extend(c, run, ByParent(ReadsEof));
    run := run + [ByParent(ReadsEof)];
  }

  /** A child whose ready read is interrupted exits without a word, and the parent takes that for success too. */
  lemma {:induction false} InterruptedChildLooksSpawned(c: Config) returns (run: seq<Action>)
    requires c.limits.configured == {}
    ensures After(c, run).Reached?
    ensures var s := After(c, run).state;
            s.parent.Spawned? && s.child == Exited(1) && !s.released && s.faults == {ReadyReadInterrupted}
  {
    run := ParentReachesDrain(c);
    Extend(c, run, ByChild(ClosesInherited));
    run := run + [ByChild(ClosesInherited)];
    Extend(c, run, ByChild(ClosesInherited));
    run := run + [ByChild(ClosesInherited)];
    Extend(c, run, ByChild(ReadyInterrupted));
    run := run + [ByChild(ReadyInterrupted)];
    assert After(c, run).state.error.writers == {};
    RunKeepsInv(c, run);
    Extend(c, run, ByParent(ReadsEof));
    run := run + [ByParent(ReadsEof)];
  }

  /** The first stage fails: the child is about to report it to a parent that is in its drain. */
  lemma {:induction false} ChildReachesReport(c: Config, msg: seq<U8>) returns (run: seq<Action>)
    requires c.limits.configured == {} && c.stages != []
    ensures After(c, run).Reached?
    ensures var s := After(c, run).state;
            && s.parent.FirstRead? && s.child == Reporting(Encode(c.stages[0], msg))
            && s.faults == {} && s.written == []
            && s.report == SetupFailed(c.stages[0], msg) && s.error == Pipe([], {Child}, {Parent})
  {
    run := ParentReachesDrain(c);
    Extend(c, run, ByChild(ClosesInherited));
    run := run + [ByChild(ClosesInherited)];
    Extend(c, run, ByChild(ClosesInherited));
    run := run + [ByChild(ClosesInherited)];
    Extend(c, run, ByChild(ReadsReady));
    run := run + [ByChild(ReadsReady)];
    Extend(c, run, ByChild(StageFails(msg)));
    run := run + [ByChild(StageFails(msg))];
  }

  /** A report whose first write fails is lost: the parent takes a failed setup for success. */
  lemma {:induction false} LostReportLooksSpawned(c: Config, msg: seq<U8>) returns (run: seq<Action>)
    requires c.limits.configured == {} && c.stages != []
    ensures After(c, run).Reached?
    ensures var s := After(c, run).state;
            && s.parent.Spawned? && s.report == SetupFailed(c.stages[0], msg)
            && s.child == Exited(1) && s.faults == {ReportWriteFailed}
  {
    run := ChildReachesReport(c, msg);
    Extend(c, run, ByChild(WriteFails));
    run := run + [ByChild(WriteFails)];
    Extend(c, run, ByChild(ClosesReported));
    run := run + [ByChild(ClosesReported)];
    assert After(c, run).state.error.writers == {};
    Extend(c, run, ByParent(ReadsEof));
    run := run + [ByParent(ReadsEof)];
  }

  /** The first byte of a report goes out on its own. */
  lemma {:induction false} ChildWritesTag(c: Config, msg: seq<U8>) returns (run: seq<Action>)
    requires c.limits.configured == {} && c.stages != [] && msg != []
    ensures After(c, run).Reached?
    ensures var s := After(c, run).state;
            && s.parent.FirstRead? && s.child.Reporting? && s.report == SetupFailed(c.stages[0], msg)
            && s.error == Pipe([Tag(c.stages[0])], {Child}, {Parent})
  {
    run := ChildReachesReport(c, msg);
    var s := After(c, run).state;
    assert s.child.rest[..1] == [Tag(c.stages[0])] && |s.child.rest| > 1;
    Extend(c, run, ByChild(Writes(1)));
    run := run + [ByChild(Writes(1))];
  }

  /** The child's half of the next run: one byte goes out, then the write fails. */
  lemma {:induction false} ChildWritesOnlyTag(c: Config, msg: seq<U8>) returns (run: seq<Action>)
    requires c.limits.configured == {} && c.stages != [] && msg != []
    ensures After(c, run).Reached?
    ensures var s := After(c, run).state;
            && s.parent.FirstRead? && s.child == Exited(1) && s.report == SetupFailed(c.stages[0], msg)
            && s.error == Pipe([Tag(c.stages[0])], {}, {Parent})
  {
    run := ChildWritesTag(c, msg);
    Extend(c, run, ByChild(WriteFails));
    run := run + [ByChild(WriteFails)];
    Extend(c, run, ByChild(ClosesReported));
    run := run + [ByChild(ClosesReported)];
  }

  /** A report whose second write fails is cut: the parent reports the stage's tag without the message. */
  lemma {:induction false} CutReportLosesMessage(c: Config, msg: seq<U8>) returns (run: seq<Action>)
    requires c.limits.configured == {} && c.stages != [] && msg != []
    ensures After(c, run).Reached?
    ensures var s := After(c, run).state;
            s.parent == Reported([Tag(c.stages[0])]) && s.report == SetupFailed(c.stages[0], msg)
  {
    run := ChildWritesOnlyTag(c, msg);
    var s := After(c, run).state;
    assert [] + s.error.queue[..1] == s.error.queue && s.error.queue[1..] == [];
    Extend(c, run, ByParent(Reads(1)));
    run := run + [ByParent(Reads(1))];
    Extend(c, run, ByParent(ReadsEof));
    run := run + [ByParent(ReadsEof)];
    Extend(c, run, ByParent(Kills));
    run := run + [ByParent(Kills)];
  }
}
