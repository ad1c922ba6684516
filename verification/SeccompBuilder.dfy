/**
 `SeccompFilterBuilder` and `SeccompFilter`: the rule vector updated method by method, `build` with its
 exit check, and the equality of compiled filters. A builder means a default action and the map of `LastWins`.
 */
module SeccompBuilder {
  import opened MachineInts
  import opened Wrappers
  import opened Cbpf
  import opened SeccompRules
  import opened SeccompCompiler

  datatype SeccompFilter = SeccompFilter(defaultAction: SeccompAction, program: seq<Insn>, ruleCount: nat) {
    /** `PartialEq::eq`, field by field as written. */
    predicate Eq(other: SeccompFilter) {
      && defaultAction == other.defaultAction
      && ruleCount == other.ruleCount
      && |program| == |other.program|
      && forall i :: 0 <= i < |program| ==>
           && program[i].code == other.program[i].code
           && program[i].jt == other.program[i].jt
           && program[i].jf == other.program[i].jf
           && program[i].k == other.program[i].k
    }
  }

  datatype BuildError = ExitNotCallable | Compile(error: CompileError)

  /** A syscall is callable when its filter word is `ALLOW` or `LOG`. */
  predicate Callable(word: U32) {
    word == RET_ALLOW || word == RET_LOG
  }

  /** The word encodings of the six actions are distinct, over all errno values. */
  lemma {:induction false} EncodingInjective(a: SeccompAction, b: SeccompAction)
    ensures ToBpfRet(a) == ToBpfRet(b) <==> a == b
    ensures Callable(ToBpfRet(a)) <==> a.Allow? || a.Log?
  {
  }

  /** `exit` and `exit_group` return `ALLOW` or `LOG` under the rules. */
  ghost predicate ExitsCallable(target: Target, default: SeccompAction, m: map<I32, U32>) {
    && Callable(Decision(default, m, target.ExitNr()))
    && Callable(Decision(default, m, target.ExitGroupNr()))
  }

  /** Exactly the rule lists that `build` turns into a filter. */
  ghost predicate Buildable(target: Target, default: SeccompAction, rules: seq<Rule>) {
    ExitsCallable(target, default, LastWins(rules)) && |LastWins(rules)| <= 255
  }

  /** The filter that `build` returns. */
  ghost function FilterOf(target: Target, default: SeccompAction, rules: seq<Rule>): SeccompFilter
    requires |LastWins(rules)| <= 255
  {
    CanonicalRefinesMap(rules);
    SeccompFilter(default, Layout(target, default, Canonical(rules)), |LastWins(rules)|)
  }

  // ----- what the kernel does with the words -----

  /** `AUDIT_ARCH_*` by its parts: the ELF machine number, 64-bit, little-endian. */
  ghost function NativeArch(target: Target): U32 {
    (if target.X86_64? then 62 else 183) + 0x8000_0000 + 0x4000_0000
  }

  /** The numbers of `exit` and `exit_group`. */
  ghost function ExitSyscalls(target: Target): set<I32> {
    if target.X86_64? then {60, 231} else {93, 94}
  }

  /** A rule map with each word read as the kernel reads it. */
  ghost function ReadMap(m: map<I32, U32>): map<I32, Option<SeccompAction>> {
    map nr | nr in m :: KernelAction(m[nr])
  }

  /** The action that rules and default ask for: foreign architectures are killed. */
  ghost function ActionTaken(
    target: Target, default: SeccompAction, actions: map<I32, Option<SeccompAction>>, data: SeccompData)
    : Option<SeccompAction>
  {
    if data.arch != NativeArch(target) then Some(KillProcess)
    else if data.nr in actions then actions[data.nr]
    else Some(default)
  }

  /** The kernel's reading of the verdict word is the action asked for. */
  lemma {:induction false} VerdictIsAction(target: Target, default: SeccompAction, m: map<I32, U32>, data: SeccompData)
    ensures KernelAction(Verdict(target, default, m, data)) == ActionTaken(target, default, ReadMap(m), data)
  {
    KernelTakesEncodedAction(default);
    KernelTakesEncodedAction(KillProcess);
  }

  /** The syscall goes through on the native architecture, possibly with a log entry. */
  ghost predicate GoesThrough(
    target: Target, default: SeccompAction, actions: map<I32, Option<SeccompAction>>, nr: I32)
  {
    ActionTaken(target, default, actions, SeccompData(nr, NativeArch(target))) in {Some(Allow), Some(Log)}
  }

  ghost predicate ActionWords(m: map<I32, U32>) {
    forall nr :: nr in m ==> IsActionWord(m[nr])
  }

  lemma {:induction false} CallableWord(word: U32)
    requires IsActionWord(word)
    ensures Callable(word) <==> KernelAction(word) in {Some(Allow), Some(Log)}
  {
  }

  lemma {:induction false} CallableGoesThrough(target: Target, default: SeccompAction, m: map<I32, U32>, nr: I32)
    requires ActionWords(m)
    ensures Callable(Decision(default, m, nr)) <==> GoesThrough(target, default, ReadMap(m), nr)
  {
    KernelTakesEncodedAction(default);
    CallableWord(Decision(default, m, nr));
  }

  /** The exit check on words is about the two exit syscalls and the kernel's actions. */
  lemma {:induction false} ExitsCallableMeans(target: Target, default: SeccompAction, m: map<I32, U32>)
    requires ActionWords(m)
    ensures ExitsCallable(target, default, m) <==>
              forall nr :: nr in ExitSyscalls(target) ==> GoesThrough(target, default, ReadMap(m), nr)
  {
    assert ExitSyscalls(target) == {target.ExitNr(), target.ExitGroupNr()};
    CallableGoesThrough(target, default, m, target.ExitNr());
    CallableGoesThrough(target, default, m, target.ExitGroupNr());
  }

  /** Rules whose words encode actions. */
  ghost predicate Encoded(rules: seq<Rule>) {
    forall r :: r in rules ==> IsActionWord(r.action)
  }

  lemma {:induction false} EncodedMap(rules: seq<Rule>)
    requires Encoded(rules)
    ensures ActionWords(LastWins(rules))
  {
    if rules == [] {
    } else {
      EncodedMap(rules[..|rules| - 1]);
      assert rules[|rules| - 1] in rules;
    }
  }

  lemma {:induction false} RulesForEncoded(syscalls: seq<I64>, action: SeccompAction)
    ensures Encoded(RulesFor(syscalls, action))
  {
    KernelTakesEncodedAction(action);
    if syscalls == [] {
    } else {
      RulesForEncoded(syscalls[..|syscalls| - 1], action);
    }
  }

  lemma {:induction false} WithoutIsPart(rules: seq<Rule>, nr: I32, r: Rule)
    requires r in Without(rules, nr)
    ensures r in rules
  {
    var init := rules[..|rules| - 1];
    if r in Without(init, nr) {
      WithoutIsPart(init, nr, r);
    } else {
      assert r == rules[|rules| - 1];
    }
  }

  lemma {:induction false} ReadKeepsOverwritten(m: map<I32, U32>, m': map<I32, U32>, syscalls: seq<I64>,
                                                action: SeccompAction)
    requires OverwrittenBy(m, m', syscalls, ToBpfRet(action))
    ensures OverwrittenBy(ReadMap(m), ReadMap(m'), syscalls, Some(action))
  {
    KernelTakesEncodedAction(action);
  }

  // ----- rule maps under the builder's operations -----

  lemma {:induction false} LastWinsAppend(rules: seq<Rule>, r: Rule)
    ensures LastWins(rules + [r]) == LastWins(rules)[r.nr := r.action]
  {
    assert (rules + [r])[..|rules|] == rules;
  }

  /** `retain(|r| r.syscall_nr != nr)`. */
  function Without(rules: seq<Rule>, nr: I32): seq<Rule> {
    if rules == [] then []
    else
      var rest := Without(rules[..|rules| - 1], nr);
      if rules[|rules| - 1].nr != nr then rest + [rules[|rules| - 1]] else rest
  }

  lemma {:induction false} LastWinsWithout(rules: seq<Rule>, nr: I32)
    ensures LastWins(Without(rules, nr)) == LastWins(rules) - {nr}
  {
    if rules == [] {
    } else {
      var init, last := rules[..|rules| - 1], rules[|rules| - 1];
      LastWinsWithout(init, nr);
      if last.nr != nr {
        LastWinsAppend(Without(init, nr), last);
      }
    }
  }

  /** A rule with one action for each listed syscall, in list order. */
  function RulesFor(syscalls: seq<I64>, action: SeccompAction): seq<Rule> {
    if syscalls == [] then []
    else RulesFor(syscalls[..|syscalls| - 1], action) + [Rule(I64AsI32(syscalls[|syscalls| - 1]), ToBpfRet(action))]
  }

  /** Some listed syscall has this number after the cut to 32 bits. */
  ghost predicate Lists(syscalls: seq<I64>, nr: I32) {
    exists i :: 0 <= i < |syscalls| && I64AsI32(syscalls[i]) == nr
  }

  /** `m` with every listed syscall sent to `word`. */
  ghost predicate OverwrittenBy<T>(m: map<I32, T>, m': map<I32, T>, syscalls: seq<I64>, word: T) {
    && (forall nr: I32 :: nr in m' <==> nr in m || Lists(syscalls, nr))
    && (forall nr: I32 :: nr in m' ==>
          if Lists(syscalls, nr) then m'[nr] == word else nr in m && m'[nr] == m[nr])
  }

  lemma {:induction false} OverwrittenByStep(m: map<I32, U32>, m': map<I32, U32>, syscalls: seq<I64>, k: nat, word: U32)
    requires k < |syscalls| && OverwrittenBy(m, m', syscalls[..k], word)
    ensures OverwrittenBy(m, m'[I64AsI32(syscalls[k]) := word], syscalls[..k + 1], word)
  {
    var before, after := syscalls[..k], syscalls[..k + 1];
    forall nr: I32
      ensures Lists(after, nr) <==> Lists(before, nr) || I64AsI32(syscalls[k]) == nr
    {
      if Lists(before, nr) {
        var i :| 0 <= i < |before| && I64AsI32(before[i]) == nr;
        assert after[i] == before[i];
      }
      if Lists(after, nr) {
        var i :| 0 <= i < |after| && I64AsI32(after[i]) == nr;
        assert i < k ==> before[i] == after[i];
      }
      assert after[k] == syscalls[k];
    }
  }

  lemma {:induction false} LastWinsConcatRulesFor(rules: seq<Rule>, syscalls: seq<I64>, action: SeccompAction)
    ensures OverwrittenBy(LastWins(rules), LastWins(rules + RulesFor(syscalls, action)), syscalls, ToBpfRet(action))
  {
    if syscalls == [] {
      assert rules + RulesFor(syscalls, action) == rules;
    } else {
      var k := |syscalls| - 1;
      var r := Rule(I64AsI32(syscalls[k]), ToBpfRet(action));
      LastWinsConcatRulesFor(rules, syscalls[..k], action);
      assert rules + RulesFor(syscalls, action) == rules + RulesFor(syscalls[..k], action) + [r];
      LastWinsAppend(rules + RulesFor(syscalls[..k], action), r);
      var m := LastWins(rules + RulesFor(syscalls[..k], action));
      OverwrittenByStep(LastWins(rules), m, syscalls, k, ToBpfRet(action));
      assert syscalls[..k + 1] == syscalls;
    }
  }

  /** Denies appended after allows win, and the default allows the rest. */
  lemma {:induction false} PermissiveRules(allowed: seq<I64>, blocked: seq<I64>)
    ensures var m := LastWins(RulesFor(allowed, Allow) + RulesFor(blocked, KillProcess));
            forall nr: I32 :: Decision(Allow, m, nr) == if Lists(blocked, nr) then RET_KILL_PROCESS else RET_ALLOW
  {
    var rs := RulesFor(allowed, Allow);
    LastWinsConcatRulesFor([], allowed, Allow);
    assert [] + rs == rs;
    LastWinsConcatRulesFor(rs, blocked, KillProcess);
    assert forall nr: I32 :: nr in LastWins(rs) ==> LastWins(rs)[nr] == RET_ALLOW;
  }

  // ----- canonical form of filters -----

  /** The filter a rule list compiles to returns its verdict on every input, and the kernel accepts it. */
  lemma {:induction false} FilterDecides(target: Target, default: SeccompAction, rules: seq<Rule>, data: SeccompData)
    requires |LastWins(rules)| <= 255
    ensures Execute(FilterOf(target, default, rules).program, data)
         == Returned(Verdict(target, default, LastWins(rules), data))
    ensures AcceptedByKernel(FilterOf(target, default, rules).program)
  {
    CanonicalRefinesMap(rules);
    LayoutDecides(target, default, Canonical(rules), data);
    LayoutAccepted(target, default, Canonical(rules));
  }

  /** Filters are equal under `PartialEq` exactly when they have one default and one effective rule map. */
  lemma {:induction false} FilterEqIffSameRules(
    target: Target, d1: SeccompAction, rules1: seq<Rule>, d2: SeccompAction, rules2: seq<Rule>)
    requires |LastWins(rules1)| <= 255 && |LastWins(rules2)| <= 255
    ensures FilterOf(target, d1, rules1).Eq(FilterOf(target, d2, rules2))
       <==> d1 == d2 && LastWins(rules1) == LastWins(rules2)
    ensures d1 == d2 && LastWins(rules1) == LastWins(rules2) ==>
              FilterOf(target, d1, rules1) == FilterOf(target, d2, rules2)
  {
    CanonicalRefinesMap(rules1);
    CanonicalRefinesMap(rules2);
    CanonicalIffSameMap(rules1, rules2);
    var f1, f2 := FilterOf(target, d1, rules1), FilterOf(target, d2, rules2);
    if f1.Eq(f2) {
      assert f1.program == f2.program;
      LayoutInjective(target, d1, Canonical(rules1), Canonical(rules2));
    }
  }

  /** Equality is finer than deciding alike: a rule that repeats the default changes the filter and no decision. */
  lemma {:induction false} DecidingAlikeIsNotEqual(target: Target, data: SeccompData)
    ensures var redundant := [Rule(0, RET_ALLOW)];
            && |LastWins(redundant)| == 1 && |LastWins([])| == 0
            && Execute(FilterOf(target, Allow, redundant).program, data)
            == Execute(FilterOf(target, Allow, []).program, data)
            && !FilterOf(target, Allow, redundant).Eq(FilterOf(target, Allow, []))
  {
    var redundant := [Rule(0, RET_ALLOW)];
    assert redundant[..0] == [];
    assert LastWins(redundant) == map[0 := RET_ALLOW];
    FilterDecides(target, Allow, redundant, data);
    FilterDecides(target, Allow, [], data);
    FilterEqIffSameRules(target, Allow, redundant, Allow, []);
  }

  /**
   The exit guarantee on programs: when the filter exists at all, the exit check holds iff the program, run on the
   native architecture with `exit` and with `exit_group`, returns `ALLOW` or `LOG`.
   */
  lemma {:induction false} ExitCheckIsAboutThePrograms(target: Target, default: SeccompAction, rules: seq<Rule>)
    requires |LastWins(rules)| <= 255
    ensures var prog := FilterOf(target, default, rules).program;
            ExitsCallable(target, default, LastWins(rules)) <==>
              forall nr: I32 | nr == target.ExitNr() || nr == target.ExitGroupNr() ::
                exists word: U32 :: Callable(word)
                  && Execute(prog, SeccompData(nr, target.AuditArch())) == Returned(word)
  {
    var prog := FilterOf(target, default, rules).program;
    var m := LastWins(rules);
    forall nr: I32
      ensures Execute(prog, SeccompData(nr, target.AuditArch())) == Returned(Decision(default, m, nr))
    {
      FilterDecides(target, default, rules, SeccompData(nr, target.AuditArch()));
    }
  }

  /** Run on `data`, the program returns a word that the kernel reads as `action`. */
  ghost predicate TakesAction(prog: seq<Insn>, data: SeccompData, action: Option<SeccompAction>) {
    Execute(prog, data).Returned? && KernelAction(Execute(prog, data).word) == action
  }

  /** The kernel, running the filter of a rule list, takes the actions the list asks for, on every input. */
  lemma {:induction false} BuildTakesActions(target: Target, default: SeccompAction, rules: seq<Rule>)
    ensures |LastWins(rules)| <= 255 ==>
              forall data :: TakesAction(FilterOf(target, default, rules).program, data,
                                         ActionTaken(target, default, ReadMap(LastWins(rules)), data))
  {
    if |LastWins(rules)| <= 255 {
      forall data: SeccompData
        ensures TakesAction(FilterOf(target, default, rules).program, data,
                            ActionTaken(target, default, ReadMap(LastWins(rules)), data))
      {
        FilterDecides(target, default, rules, data);
        VerdictIsAction(target, default, LastWins(rules), data);
      }
    }
  }

  class SeccompFilterBuilder {
    var defaultAction: SeccompAction
    var rules: seq<Rule>

    /** Rules enter only through `add_rule`, with the word of an action. */
    ghost predicate Valid()
      reads this
    {
      Encoded(rules)
    }

    /** What the accumulated rules say about each syscall, as filter words. */
    ghost function Effective(): map<I32, U32>
      reads this
    {
      LastWins(rules)
    }

    /** The same as the kernel will read it. */
    ghost function Actions(): map<I32, Option<SeccompAction>>
      reads this
    {
      ReadMap(Effective())
    }

    constructor (defaultAction: SeccompAction)
      ensures Valid() && this.defaultAction == defaultAction && rules == [] && Actions() == map[]
    {
      this.defaultAction := defaultAction;
      rules := [];
    }

    /** `strict` and `standard`: allow the listed syscalls, kill on everything else. */
    constructor Allowing(syscalls: seq<I64>)
      ensures Valid() && defaultAction == KillProcess
      ensures OverwrittenBy(map[], Actions(), syscalls, Some(Allow))
    {
      defaultAction := KillProcess;
      rules := RulesFor(syscalls, Allow);
      RulesForEncoded(syscalls, Allow);
      LastWinsConcatRulesFor([], syscalls, Allow);
      assert [] + RulesFor(syscalls, Allow) == RulesFor(syscalls, Allow);
      ReadKeepsOverwritten(map[], LastWins(RulesFor(syscalls, Allow)), syscalls, Allow);
      assert ReadMap(map[]) == map[];
    }

    /** `permissive`: blocked syscalls kill even when an allow list also names them; everything else is allowed. */
    constructor Permissive(allowed: seq<I64>, blocked: seq<I64>)
      ensures Valid() && defaultAction == Allow
      ensures forall target, nr: I32 ::
                ActionTaken(target, defaultAction, Actions(), SeccompData(nr, NativeArch(target)))
                == Some(if Lists(blocked, nr) then KillProcess else Allow)
    {
      defaultAction := Allow;
      rules := RulesFor(allowed, Allow) + RulesFor(blocked, KillProcess);
      RulesForEncoded(allowed, Allow);
      RulesForEncoded(blocked, KillProcess);
      PermissiveRules(allowed, blocked);
    }

    method SetDefaultAction(action: SeccompAction)
      requires Valid()
      modifies this
      ensures Valid() && defaultAction == action && rules == old(rules)
    {
      defaultAction := action;
    }

    /** `add_rule`: the syscall number is cut to 32 bits, and the new action overrides earlier ones. */
    method AddRule(syscall: I64, action: SeccompAction)
      requires Valid()
      modifies this
      ensures Valid() && defaultAction == old(defaultAction)
      ensures Actions() == old(Actions())[I64AsI32(syscall) := Some(action)]
      ensures Effective() == old(Effective())[I64AsI32(syscall) := ToBpfRet(action)]
      ensures rules == old(rules) + [Rule(I64AsI32(syscall), ToBpfRet(action))]
    {
      var nr := I64AsI32(syscall);
      LastWinsAppend(rules, Rule(nr, ToBpfRet(action)));
      KernelTakesEncodedAction(action);
      rules := rules + [Rule(nr, ToBpfRet(action))];
    }

    /** `allow_all` and `deny_all`, with the action as a parameter. */
    method AddAll(syscalls: seq<I64>, action: SeccompAction)
      requires Valid()
      modifies this
      ensures Valid() && defaultAction == old(defaultAction)
      ensures OverwrittenBy(old(Actions()), Actions(), syscalls, Some(action))
    {
      for k := 0 to |syscalls|
        invariant Valid() && defaultAction == old(defaultAction)
        invariant OverwrittenBy(old(Effective()), Effective(), syscalls[..k], ToBpfRet(action))
      {
        OverwrittenByStep(old(Effective()), Effective(), syscalls, k, ToBpfRet(action));
        AddRule(syscalls[k], action);
      }
      assert syscalls[..|syscalls|] == syscalls;
      ReadKeepsOverwritten(old(Effective()), Effective(), syscalls, action);
    }

    /** `remove`: the syscall falls back to the default, whatever was said about it before. */
    method Remove(syscall: I64)
      requires Valid()
      modifies this
      ensures Valid() && defaultAction == old(defaultAction)
      ensures Actions() == old(Actions()) - {I64AsI32(syscall)}
      ensures rules == Without(old(rules), I64AsI32(syscall))
    {
      var nr := I64AsI32(syscall);
      LastWinsWithout(rules, nr);
      forall r | r in Without(rules, nr)
        ensures r in rules
      {
        WithoutIsPart(rules, nr, r);
      }
      rules := Without(rules, nr);
    }

    /**
     `build`: succeeds iff `exit` and `exit_group` go through and there are at most 255 distinct syscalls; the kernel
     then kills foreign architectures and otherwise takes the action of the last inserted rule, else the default.
     */
    method Build(target: Target) returns (r: Result<SeccompFilter, BuildError>)
      requires Valid()
      ensures var exitsGoThrough := forall nr :: nr in ExitSyscalls(target) ==>
                                      GoesThrough(target, defaultAction, Actions(), nr);
              && (r.Ok? <==> exitsGoThrough && |Actions()| <= 255)
              && (r.Err? ==> r.error == if exitsGoThrough then Compile(JumpOffsetOverflow) else ExitNotCallable)
      ensures r.Ok? ==> forall data :: TakesAction(r.value.program, data,
                                                   ActionTaken(target, defaultAction, Actions(), data))
      ensures r.Ok? ==> forall data ::
                Execute(r.value.program, data) == Returned(Verdict(target, defaultAction, Effective(), data))
      ensures r.Ok? ==> AcceptedByKernel(r.value.program)
      ensures r.Ok? <==> Buildable(target, defaultAction, rules)
      ensures r.Ok? ==> r.value == FilterOf(target, defaultAction, rules)
    {
      EncodedMap(rules);
      ExitsCallableMeans(target, defaultAction, Effective());
      assert Actions().Keys == Effective().Keys;
      BuildTakesActions(target, defaultAction, rules);
      var sorted := DedupRules(rules);
      var exitNr, exitGroupNr := target.ExitNr(), target.ExitGroupNr();

      var exitBlocked := AnyBlocked(sorted, exitNr);
      var exitGroupBlocked := AnyBlocked(sorted, exitGroupNr);
      var defaultAllows := defaultAction.Allow? || defaultAction.Log?;
      var exitHasAllow := AnyCallable(sorted, exitNr);
      var exitGroupHasAllow := AnyCallable(sorted, exitGroupNr);

      ExitScan(sorted, defaultAction, exitNr);
      ExitScan(sorted, defaultAction, exitGroupNr);
      if || exitBlocked || exitGroupBlocked
         || (!defaultAllows && !exitHasAllow) || (!defaultAllows && !exitGroupHasAllow) {
        return Err(ExitNotCallable);
      }

      var compiled := CompileBpf(target, defaultAction, sorted);
      if compiled.Err? {
        return Err(Compile(compiled.error));
      }
      r := Ok(SeccompFilter(defaultAction, compiled.value, |sorted|));
    }
  }

  /** `sorted.iter().any(..)` of the exit check: some rule for the syscall neither allows nor logs it. */
  predicate AnyBlocked(sorted: seq<Rule>, nr: I32) {
    exists i :: 0 <= i < |sorted| && sorted[i].nr == nr && !Callable(sorted[i].action)
  }

  /** The other scan: some rule for the syscall allows or logs it. */
  predicate AnyCallable(sorted: seq<Rule>, nr: I32) {
    exists i :: 0 <= i < |sorted| && sorted[i].nr == nr && Callable(sorted[i].action)
  }

  /** The scans of the exit check decide whether the syscall is callable under the rule map. */
  lemma {:induction false} ExitScan(sorted: seq<Rule>, default: SeccompAction, nr: I32)
    requires StrictlyAscending(sorted)
    ensures Callable(Decision(default, LastWins(sorted), nr)) <==>
              !AnyBlocked(sorted, nr) && (default.Allow? || default.Log? || AnyCallable(sorted, nr))
  {
    LastWinsKeys(sorted, nr);
    StrictListCountsKeys(sorted);
    EncodingInjective(default, Allow);
    if nr in LastWins(sorted) {
      var i :| 0 <= i < |sorted| && sorted[i].nr == nr;
      assert LastWins(sorted)[sorted[i].nr] == sorted[i].action;
    }
  }
}
