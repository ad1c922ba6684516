/**
 Cgroup limit planning and enforcement (src/cgroup/limits.rs). Whether a file operation on the cgroup succeeds is chosen
 by the environment; what it does is recorded in the cgroup itself. The contract of `ConfigureCgroup` says when a spawn
 is refused, what the cgroup then holds, and what the diagnostics mean.
 */
module CgroupLimits {
  import opened Wrappers

  datatype Limit = Memory | Cpu | Pids

  datatype ResourceEnforcement = StrictPolicy | BestEffortPolicy

  /** Which limits are configured, which were requested explicitly, and whether the caller runs without root. */
  datatype LimitConfig = LimitConfig(
    configured: set<Limit>,
    explicitly: set<Limit>,
    enforcement: ResourceEnforcement,
    rootless: bool)

  datatype EnforcementMode = NotRequestedMode | Strict | BestEffort

  datatype LimitPlan = LimitPlan(memory: EnforcementMode, cpu: EnforcementMode, pids: EnforcementMode) {
    function Mode(limit: Limit): EnforcementMode {
      match limit
      case Memory => memory
      case Cpu => cpu
      case Pids => pids
    }

    /** `first_strict_limit`. */
    function FirstStrictLimit(): Option<Limit> {
      if memory == Strict then Some(Memory)
      else if cpu == Strict then Some(Cpu)
      else if pids == Strict then Some(Pids)
      else None
    }
  }

  datatype LimitStatus = NotRequested | Enforced | NotEnforced | Unknown

  datatype LimitDiagnostics = LimitDiagnostics(memory: LimitStatus, cpu: LimitStatus, pids: LimitStatus) {
    function Status(limit: Limit): LimitStatus {
      match limit
      case Memory => memory
      case Cpu => cpu
      case Pids => pids
    }

    function With(limit: Limit, status: LimitStatus): LimitDiagnostics {
      match limit
      case Memory => this.(memory := status)
      case Cpu => this.(cpu := status)
      case Pids => this.(pids := status)
    }
  }

  /** What the environment answers: is the cgroup filesystem usable, and which operations succeed. */
  datatype CgroupEnv = CgroupEnv(available: bool, creates: bool, writes: set<Limit>, attaches: bool)

  /** The sandbox's cgroup: the limits that were written to it, and whether the child is in it. */
  datatype CgroupState = NoCgroup | Group(written: set<Limit>, attached: bool)

  /** A refused spawn names the limit that could not be enforced. */
  datatype ConfigureResult = Refused(limit: Limit) | Configured(cgroup: CgroupState, diagnostics: LimitDiagnostics)

  /** `limit_mode`. */
  function LimitMode(configured: bool, explicitly: bool, enforcement: ResourceEnforcement): EnforcementMode {
    if !configured then NotRequestedMode
    else if explicitly && enforcement == StrictPolicy then Strict
    else BestEffort
  }

  /** `LimitPlan::from`. */
  function PlanFrom(config: LimitConfig): LimitPlan {
    LimitPlan(
      LimitMode(Memory in config.configured, Memory in config.explicitly, config.enforcement),
      LimitMode(Cpu in config.configured, Cpu in config.explicitly, config.enforcement),
      LimitMode(Pids in config.configured, Pids in config.explicitly, config.enforcement))
  }

  lemma {:induction false} PlansMeanConfig(config: LimitConfig)
    ensures forall limit :: Required(config, limit) <==>
              || PlanFrom(config).Mode(limit) == Strict
              || (limit == Memory && Memory in config.configured && config.rootless)
    ensures forall limit :: PlanFrom(config).Mode(limit) == NotRequestedMode <==> limit !in config.configured
  {
    forall limit
      ensures PlanFrom(config).Mode(limit) == NotRequestedMode <==> limit !in config.configured
      ensures Required(config, limit) <==>
                || PlanFrom(config).Mode(limit) == Strict
                || (limit == Memory && Memory in config.configured && config.rootless)
    {
      PlanMeansConfig(config, limit);
    }
  }

  /** `needs_cgroup`. */
  predicate NeedsCgroup(config: LimitConfig) {
    Memory in config.configured || Cpu in config.configured || Pids in config.configured
  }

  /** A cgroup is wanted exactly when some limit is configured. */
  lemma {:induction false} NeedsCgroupExactly(config: LimitConfig)
    ensures NeedsCgroup(config) <==> config.configured != {}
  {
    if limit :| limit in config.configured {
      assert limit.Memory? || limit.Cpu? || limit.Pids?;
    }
  }

  /** `limit_status`. */
  function InitialStatus(mode: EnforcementMode): LimitStatus {
    if mode == NotRequestedMode then NotRequested else Unknown
  }

  // ----- what enforcement means -----

  /**
   The spawn must not proceed without this limit: it was requested explicitly under the strict policy, or it is the
   memory limit of a caller without root.
   */
  ghost predicate Required(config: LimitConfig, limit: Limit) {
    && limit in config.configured
    && ((limit in config.explicitly && config.enforcement.StrictPolicy?) || (limit.Memory? && config.rootless))
  }

  /** The plan says for each limit what the configuration asks for. */
  lemma {:induction false} PlanMeansConfig(config: LimitConfig, limit: Limit)
    ensures PlanFrom(config).Mode(limit) == NotRequestedMode <==> limit !in config.configured
    ensures PlanFrom(config).Mode(limit) == Strict <==>
              limit in config.configured && limit in config.explicitly && config.enforcement.StrictPolicy?
    ensures Required(config, limit) <==>
              || PlanFrom(config).Mode(limit) == Strict
              || (limit == Memory && Memory in config.configured && config.rootless)
  {
    match limit
    case Memory =>
    case Cpu =>
    case Pids =>
  }

  /** The limit was written to the cgroup and the child is in it. */
  predicate InForce(cgroup: CgroupState, limit: Limit) {
    cgroup.Group? && limit in cgroup.written && cgroup.attached
  }

  /** The environment lets every operation succeed that this limit needs. */
  ghost predicate Enforceable(config: LimitConfig, env: CgroupEnv, limit: Limit) {
    && limit in config.configured
    && env.available && env.creates && limit in env.writes && env.attaches
  }

  /** The order in which the limits are taken up. */
  function Rank(limit: Limit): nat {
    match limit
    case Memory => 0
    case Cpu => 1
    case Pids => 2
  }

  /** A failure shows on this required limit: there is no cgroup, its write fails, or only the attach does. */
  ghost predicate Blamed(config: LimitConfig, env: CgroupEnv, limit: Limit) {
    && Required(config, limit)
    && (|| !env.available || !env.creates || limit !in env.writes
        || (!env.attaches && forall other :: Required(config, other) ==> other in env.writes))
  }

  /** What `configure_cgroup` comes to, without its branches: a refusal names the first limit to blame. */
  ghost predicate Outcome(config: LimitConfig, env: CgroupEnv, r: ConfigureResult) {
    && (r.Refused? <==> exists limit :: Required(config, limit) && !Enforceable(config, env, limit))
    && (r.Refused? ==> Required(config, r.limit) && !Enforceable(config, env, r.limit))
    && (r.Refused? ==> Blamed(config, env, r.limit))
    && (r.Refused? ==> forall limit :: Blamed(config, env, limit) ==> Rank(r.limit) <= Rank(limit))
    && (r.Configured? ==>
          && r.cgroup == (if env.available && env.creates && env.attaches
                          then Group(config.configured * env.writes, true) else NoCgroup)
          && forall limit :: r.diagnostics.Status(limit)
               == if limit !in config.configured then NotRequested
                  else if InForce(r.cgroup, limit) then Enforced
                  else NotEnforced)
  }

  /** The cgroup filesystem as far as this sandbox goes. */
  class CgroupFs {
    var group: CgroupState

    constructor ()
      ensures group == NoCgroup
    {
      group := NoCgroup;
    }

    /** `CgroupManager::create`. */
    method Create(env: CgroupEnv) returns (ok: bool)
      requires group.NoCgroup?
      modifies this
      ensures ok == env.creates && group == if ok then Group({}, false) else NoCgroup
    {
      ok := env.creates;
      if ok {
        group := Group({}, false);
      }
    }

    /** `set_memory_limit`, `set_cpu_limit` and `set_pids_limit`. */
    method SetLimit(limit: Limit, env: CgroupEnv) returns (ok: bool)
      requires group.Group?
      modifies this
      ensures ok == (limit in env.writes)
      ensures group == if ok then old(group).(written := old(group).written + {limit}) else old(group)
    {
      ok := limit in env.writes;
      if ok {
        group := group.(written := group.written + {limit});
      }
    }

    /** `add_process`. */
    method AddProcess(env: CgroupEnv) returns (ok: bool)
      requires group.Group?
      modifies this
      ensures ok == env.attaches
      ensures group == if ok then old(group).(attached := true) else old(group)
    {
      ok := env.attaches;
      if ok {
        group := group.(attached := true);
      }
    }

    /** `cleanup`, called on a failed attach and by the drop of the manager on every other error. */
    method Cleanup()
      modifies this
      ensures group == NoCgroup
    {
      group := NoCgroup;
    }
  }

  /** The running state of the diagnostics, as updated in place by the helper functions. */
  class Diagnostics {
    var memory: LimitStatus
    var cpu: LimitStatus
    var pids: LimitStatus

    constructor (plan: LimitPlan)
      ensures memory == InitialStatus(plan.memory)
      ensures cpu == InitialStatus(plan.cpu)
      ensures pids == InitialStatus(plan.pids)
    {
      memory, cpu, pids := InitialStatus(plan.memory), InitialStatus(plan.cpu), InitialStatus(plan.pids);
    }

    function Value(): LimitDiagnostics
      reads this
    {
      LimitDiagnostics(memory, cpu, pids)
    }

    method Set(limit: Limit, status: LimitStatus)
      modifies this
      ensures Value() == old(Value()).With(limit, status)
    {
      match limit
      case Memory => memory := status;
      case Cpu => cpu := status;
      case Pids => pids := status;
    }

    /** `handle_limit_error`: a strict limit fails, a best-effort one is recorded as not enforced. */
    method HandleLimitError(limit: Limit, mode: EnforcementMode) returns (ok: bool)
      modifies this
      ensures ok <==> mode != Strict
      ensures Value() == if mode == BestEffort then old(Value()).With(limit, NotEnforced) else old(Value())
    {
      match mode
      case Strict => ok := false;
      case BestEffort =>
        Set(limit, NotEnforced);
        ok := true;
      case NotRequestedMode => ok := true;
    }

    /** `set_best_effort_unavailable`. */
    method SetBestEffortUnavailable(plan: LimitPlan)
      modifies this
      ensures forall limit :: Value().Status(limit)
                == if plan.Mode(limit) == BestEffort then NotEnforced else old(Value()).Status(limit)
    {
      if plan.memory == BestEffort { memory := NotEnforced; }
      if plan.cpu == BestEffort { cpu := NotEnforced; }
      if plan.pids == BestEffort { pids := NotEnforced; }
    }
  }

  /** The early exits without a cgroup: refuse a required limit, else report best-effort limits as not enforced. */
  method WithoutCgroup(config: LimitConfig, plan: LimitPlan, diagnostics: Diagnostics, ghost env: CgroupEnv)
    returns (r: ConfigureResult)
    requires plan == PlanFrom(config)
    requires diagnostics.Value()
          == LimitDiagnostics(InitialStatus(plan.memory), InitialStatus(plan.cpu), InitialStatus(plan.pids))
    requires !env.available || !env.creates
    modifies diagnostics
    ensures Outcome(config, env, r)
  {
    PlansMeanConfig(config);
    if Memory in config.configured && config.rootless {
      assert Required(config, Memory) && !Enforceable(config, env, Memory);
      return Refused(Memory);
    }
    var strict := plan.FirstStrictLimit();
    if strict.Some? {
      assert Required(config, strict.value) && !Enforceable(config, env, strict.value);
      return Refused(strict.value);
    }
    diagnostics.SetBestEffortUnavailable(plan);
    r := Configured(NoCgroup, diagnostics.Value());
  }

  /** One limit of the plan: written, or its failure handled; `rootless` makes the failure fatal whatever the mode. */
  method WriteLimit(config: LimitConfig, plan: LimitPlan, env: CgroupEnv, limit: Limit, rootless: bool, fs: CgroupFs,
                    diagnostics: Diagnostics)
    returns (ok: bool)
    requires plan == PlanFrom(config) && fs.group.Group?
    requires rootless == (limit.Memory? && Memory in config.configured && config.rootless)
    modifies fs, diagnostics
    ensures ok <==> (Required(config, limit) ==> limit in env.writes)
    ensures fs.group == if limit in config.configured && limit in env.writes
                        then old(fs.group).(written := old(fs.group).written + {limit}) else old(fs.group)
    ensures diagnostics.Value() == if ok && limit in config.configured && limit !in env.writes
                                   then old(diagnostics.Value()).With(limit, NotEnforced) else old(diagnostics.Value())
  {
    PlanMeansConfig(config, limit);
    if limit !in config.configured {
      return true;
    }
    var done := fs.SetLimit(limit, env);
    if done {
      return true;
    }
    if rootless {
      return false;
    }
    ok := diagnostics.HandleLimitError(limit, plan.Mode(limit));
  }

  /** The diagnostics after the writes: a limit that could not be written is already reported. */
  ghost predicate AfterWrites(config: LimitConfig, env: CgroupEnv, d: LimitDiagnostics) {
    forall limit :: d.Status(limit)
      == if limit !in config.configured then NotRequested else if limit in env.writes then Unknown else NotEnforced
  }

  /** The three writes in order; the first required limit that cannot be written stops them. */
  method WriteLimits(config: LimitConfig, plan: LimitPlan, env: CgroupEnv, rootlessMemory: bool, fs: CgroupFs,
                     diagnostics: Diagnostics)
    returns (failed: Option<Limit>)
    requires plan == PlanFrom(config) && fs.group == Group({}, false)
    requires rootlessMemory == (Memory in config.configured && config.rootless)
    requires diagnostics.Value()
          == LimitDiagnostics(InitialStatus(plan.memory), InitialStatus(plan.cpu), InitialStatus(plan.pids))
    modifies fs, diagnostics
    ensures failed.None? ==>
              && fs.group == Group(config.configured * env.writes, false)
              && AfterWrites(config, env, diagnostics.Value())
              && (forall limit :: Required(config, limit) ==> limit in env.writes)
    ensures failed.Some? ==>
              && Required(config, failed.value) && failed.value !in env.writes
              && (forall limit :: Required(config, limit) && Rank(limit) < Rank(failed.value) ==> limit in env.writes)
  {
    PlansMeanConfig(config);
    var ok := WriteLimit(config, plan, env, Memory, rootlessMemory, fs, diagnostics);
    if !ok {
      return Some(Memory);
    }
    ok := WriteLimit(config, plan, env, Cpu, false, fs, diagnostics);
    if !ok {
      return Some(Cpu);
    }
    ok := WriteLimit(config, plan, env, Pids, false, fs, diagnostics);
    if !ok {
      return Some(Pids);
    }
    forall limit: Limit
      ensures limit in fs.group.written <==> limit in config.configured * env.writes
    {
      assert limit.Memory? || limit.Cpu? || limit.Pids?;
    }
    assert fs.group.written == config.configured * env.writes;
    failed := None;
  }

  /**
   `configure_cgroup`, with the steps in source order. On success the returned cgroup is the one in the filesystem; a
   refusal leaves none.
   */
  method ConfigureCgroup(config: LimitConfig, env: CgroupEnv, fs: CgroupFs) returns (r: ConfigureResult)
    requires fs.group.NoCgroup?
    modifies fs
    ensures Outcome(config, env, r)
    ensures fs.group == if r.Configured? then r.cgroup else NoCgroup
  {
    var plan := PlanFrom(config);
    var rootlessMemory := Memory in config.configured && config.rootless;
    var diagnostics := new Diagnostics(plan);

    if !env.available {
      r := WithoutCgroup(config, plan, diagnostics, env);
      return;
    }
    var created := fs.Create(env);
    if !created {
      r := WithoutCgroup(config, plan, diagnostics, env);
      return;
    }

    var failed := WriteLimits(config, plan, env, rootlessMemory, fs, diagnostics);
    if failed.Some? {
      fs.Cleanup();
      assert Required(config, failed.value) && !Enforceable(config, env, failed.value);
      return Refused(failed.value);
    }
    r := AttachChild(config, plan, env, rootlessMemory, fs, diagnostics);
  }

  /** The last step: the child joins the cgroup, or the written limits do not count. */
  method AttachChild(config: LimitConfig, plan: LimitPlan, env: CgroupEnv, rootlessMemory: bool, fs: CgroupFs,
                     diagnostics: Diagnostics)
    returns (r: ConfigureResult)
    requires plan == PlanFrom(config) && env.available && env.creates
    requires rootlessMemory == (Memory in config.configured && config.rootless)
    requires fs.group == Group(config.configured * env.writes, false)
    requires AfterWrites(config, env, diagnostics.Value())
    requires forall limit :: Required(config, limit) ==> limit in env.writes
    modifies fs, diagnostics
    ensures Outcome(config, env, r)
    ensures fs.group == if r.Configured? then r.cgroup else NoCgroup
  {
    PlansMeanConfig(config);
    var memory, cpu, pids := Memory in fs.group.written, Cpu in fs.group.written, Pids in fs.group.written;
    assert diagnostics.memory == diagnostics.Value().Status(Memory);
    assert diagnostics.cpu == diagnostics.Value().Status(Cpu);
    assert diagnostics.pids == diagnostics.Value().Status(Pids);
    var attached := fs.AddProcess(env);
    if !attached {
      if rootlessMemory {
        fs.Cleanup();
        assert Required(config, Memory) && !Enforceable(config, env, Memory);
        return Refused(Memory);
      }
      var strict := plan.FirstStrictLimit();
      if strict.Some? {
        fs.Cleanup();
        assert Required(config, strict.value) && !Enforceable(config, env, strict.value);
        return Refused(strict.value);
      }
      if memory { diagnostics.memory := NotEnforced; }
      if cpu { diagnostics.cpu := NotEnforced; }
      if pids { diagnostics.pids := NotEnforced; }
      fs.Cleanup();
      return Configured(NoCgroup, diagnostics.Value());
    }

    if memory { diagnostics.memory := Enforced; }
    if cpu { diagnostics.cpu := Enforced; }
    if pids { diagnostics.pids := Enforced; }
    r := Configured(fs.group, diagnostics.Value());
  }

  /** The outcome is a function of configuration and environment. */
  lemma {:induction false} OutcomeDetermined(config: LimitConfig, env: CgroupEnv, r1: ConfigureResult,
                                             r2: ConfigureResult)
    requires Outcome(config, env, r1) && Outcome(config, env, r2)
    ensures r1 == r2
  {
    if r1.Configured? {
      var d1, d2 := r1.diagnostics, r2.diagnostics;
      assert d1.Status(Memory) == d2.Status(Memory) && d1.Status(Cpu) == d2.Status(Cpu);
      assert d1.Status(Pids) == d2.Status(Pids);
    }
  }

  /** Without a cgroup filesystem every configuration has an outcome. */
  lemma {:induction false} WithoutFilesystem(config: LimitConfig, env: CgroupEnv) returns (r: ConfigureResult)
    requires !env.available
    ensures Outcome(config, env, r)
  {
    if Required(config, Memory) {
      assert !Enforceable(config, env, Memory);
      r := Refused(Memory);
    } else if Required(config, Cpu) {
      assert !Enforceable(config, env, Cpu);
      r := Refused(Cpu);
    } else if Required(config, Pids) {
      assert !Enforceable(config, env, Pids);
      r := Refused(Pids);
    } else {
      forall limit
        ensures !Required(config, limit)
      {
        assert limit.Memory? || limit.Cpu? || limit.Pids?;
      }
      var status := (l: Limit) => if l in config.configured then NotEnforced else NotRequested;
      r := Configured(NoCgroup, LimitDiagnostics(status(Memory), status(Cpu), status(Pids)));
      assert forall l :: r.diagnostics.Status(l) == status(l);
    }
  }

  /**
   A configuration that is let through has every required limit written to the cgroup that the child is in, a limit is
   reported as enforced exactly when that is so, and none is left unevaluated.
   */
  lemma {:induction false} LetThroughIsEnforced(config: LimitConfig, env: CgroupEnv, r: ConfigureResult, limit: Limit)
    requires Outcome(config, env, r) && r.Configured?
    ensures Required(config, limit) ==> InForce(r.cgroup, limit) && r.diagnostics.Status(limit) == Enforced
    ensures r.diagnostics.Status(limit) == Enforced <==> InForce(r.cgroup, limit)
    ensures limit in config.configured ==> r.diagnostics.Status(limit) in {Enforced, NotEnforced}
    ensures r.diagnostics.Status(limit) != Unknown
  {
    assert Required(config, limit) ==> limit in config.configured;
  }
}
