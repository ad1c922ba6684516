/**
 The seccomp rule compiler of src/seccomp/bpf.rs: the program vector is extended by one recursive
 in-order pass, patched in place by a second one, and proved to decide every syscall as its rules say.
 */
module SeccompCompiler {
  import opened MachineInts
  import opened Wrappers
  import opened Cbpf
  import opened SeccompRules

  /** The two supported targets fix `AUDIT_ARCH` and the syscall numbers of `exit` and `exit_group`. */
  datatype Target = X86_64 | Aarch64 {
    function AuditArch(): U32 {
      if X86_64? then 0xC000_003E else 0xC000_00B7
    }
    function ExitNr(): I32 {
      if X86_64? then 60 else 93
    }
    function ExitGroupNr(): I32 {
      if X86_64? then 231 else 94
    }
  }

  datatype CompileError = JumpOffsetOverflow | ProgramTooLarge

  // ----- the program as a closed form -----

  function Header(target: Target): seq<Insn> {
    [ Stmt(LD_W_ABS, ARCH_OFFSET),
      Jump(JMP_JEQ_K, target.AuditArch(), 1, 0),
      Stmt(RET_K, ToBpfRet(KillProcess)),
      Stmt(LD_W_ABS, NR_OFFSET) ]
  }

  /** One exact-match test per rule, all with true-offset `jt`. */
  function Table(rules: seq<Rule>, jt: U8): (t: seq<Insn>)
    ensures |t| == |rules|
    ensures forall i :: 0 <= i < |rules| ==> t[i] == Jump(JMP_JEQ_K, I32AsU32(rules[i].nr), jt, 0)
  {
    if rules == [] then []
    else Table(rules[..|rules| - 1], jt) + [Jump(JMP_JEQ_K, I32AsU32(rules[|rules| - 1].nr), jt, 0)]
  }

  /** One return per rule. */
  function Returns(rules: seq<Rule>): (t: seq<Insn>)
    ensures |t| == |rules|
    ensures forall i :: 0 <= i < |rules| ==> t[i] == Stmt(RET_K, rules[i].action)
  {
    if rules == [] then [] else Returns(rules[..|rules| - 1]) + [Stmt(RET_K, rules[|rules| - 1].action)]
  }

  /** Table, jump over the rule returns, rule returns, default return. */
  function TableBlock(rules: seq<Rule>, jt: U8, defaultRet: U32): seq<Insn> {
    Table(rules, jt) + [Stmt(JMP_JA, UsizeAsU32(|rules|))] + Returns(rules) + [Stmt(RET_K, defaultRet)]
  }

  /** The whole program: 5 instructions without rules, 2N + 6 with N rules; the default return is the last one. */
  function Layout(target: Target, default: SeccompAction, rules: seq<Rule>): (prog: seq<Insn>)
    requires |rules| <= 255
    ensures |prog| == if rules == [] then 5 else 2 * |rules| + 6
  {
    if rules == [] then Header(target) + [Stmt(RET_K, ToBpfRet(default))]
    else Header(target) + TableBlock(rules, |rules|, ToBpfRet(default))
  }

  // ----- what the program decides -----

  /** The word a rule map gives for a syscall. */
  ghost function Decision(default: SeccompAction, m: map<I32, U32>, nr: I32): U32 {
    if nr in m then m[nr] else ToBpfRet(default)
  }

  /** The word a filter must return: foreign architectures are killed, native syscalls follow the rules. */
  ghost function Verdict(target: Target, default: SeccompAction, m: map<I32, U32>, data: SeccompData): U32 {
    if data.arch != target.AuditArch() then RET_KILL_PROCESS else Decision(default, m, data.nr)
  }

  /** The instructions of a program with rules, slot by slot. */
  ghost predicate HasSlots(prog: seq<Insn>, rules: seq<Rule>, defaultRet: U32) {
    var n := |rules|;
    && 0 < n <= 255
    && |prog| == 2 * n + 6
    && (forall i :: 0 <= i < n ==> prog[4 + i] == Jump(JMP_JEQ_K, I32AsU32(rules[i].nr), n, 0))
    && prog[4 + n] == Stmt(JMP_JA, n)
    && (forall i :: 0 <= i < n ==> prog[5 + n + i] == Stmt(RET_K, rules[i].action))
    && prog[2 * n + 5] == Stmt(RET_K, defaultRet)
  }

  lemma {:induction false} LayoutSlots(target: Target, default: SeccompAction, rules: seq<Rule>)
    requires 0 < |rules| <= 255
    ensures HasSlots(Layout(target, default, rules), rules, ToBpfRet(default))
    ensures Layout(target, default, rules)[..4] == Header(target)
  {
    var n := |rules|;
    var prog := Layout(target, default, rules);
    var h, t, r := Header(target), Table(rules, n), Returns(rules);
    var ja, last := [Stmt(JMP_JA, n)], [Stmt(RET_K, ToBpfRet(default))];
    assert prog == h + (t + ja + r + last);
    forall i | 0 <= i < n
      ensures prog[4 + i] == t[i] && prog[5 + n + i] == r[i]
    {
    }
  }

  /** The linear scan of the table from slot `i`: the first rule for the loaded number decides, else the default. */
  lemma {:induction false} TableScan(prog: seq<Insn>, default: SeccompAction, rules: seq<Rule>, i: nat,
                                     data: SeccompData)
    requires HasSlots(prog, rules, ToBpfRet(default)) && i <= |rules|
    ensures Run(prog, 4 + i, I32AsU32(data.nr), data)
         == Returned(Decision(default, FirstWins(rules[i..]), data.nr))
    decreases |rules| - i
  {
    var acc, n := I32AsU32(data.nr), |rules|;
    if i == n {
      assert Run(prog, 4 + n, acc, data) == Run(prog, 2 * n + 5, acc, data);
    } else {
      assert rules[i..] == [rules[i]] + rules[i + 1..];
      FirstWinsCons(rules[i], rules[i + 1..]);
      if rules[i].nr == data.nr {
        assert Run(prog, 4 + i, acc, data) == Run(prog, 5 + n + i, acc, data);
      } else {
        TableScan(prog, default, rules, i + 1, data);
      }
    }
  }

  lemma {:induction false} HeaderRuns(target: Target, prog: seq<Insn>, data: SeccompData)
    requires |prog| >= 5 && prog[..4] == Header(target)
    ensures Execute(prog, data) == if data.arch == target.AuditArch() then Run(prog, 4, I32AsU32(data.nr), data)
                                   else Returned(RET_KILL_PROCESS)
  {
    var h := Header(target);
    assert prog[0] == h[0] && prog[1] == h[1] && prog[2] == h[2] && prog[3] == h[3];
    assert Execute(prog, data) == Run(prog, 1, data.arch, data);
    if data.arch == target.AuditArch() {
      assert Run(prog, 1, data.arch, data) == Run(prog, 3, data.arch, data);
    } else {
      assert Run(prog, 1, data.arch, data) == Run(prog, 2, data.arch, data);
    }
  }

  lemma {:induction false} StrictFirstIsLast(rules: seq<Rule>)
    requires StrictlyAscending(rules)
    ensures FirstWins(rules) == LastWins(rules)
  {
    if rules == [] {
    } else {
      var init := rules[..|rules| - 1];
      StrictFirstIsLast(init);
      LastWinsKeys(init, rules[|rules| - 1].nr);
    }
  }

  lemma {:induction false} SlotsDecide(
    target: Target, default: SeccompAction, rules: seq<Rule>, prog: seq<Insn>, data: SeccompData)
    requires HasSlots(prog, rules, ToBpfRet(default)) && prog[..4] == Header(target) && StrictlyAscending(rules)
    ensures Execute(prog, data) == Returned(Verdict(target, default, LastWins(rules), data))
  {
    HeaderRuns(target, prog, data);
    TableScan(prog, default, rules, 0, data);
    assert rules[0..] == rules;
    StrictFirstIsLast(rules);
  }

  lemma {:induction false} EmptyDecides(target: Target, default: SeccompAction, data: SeccompData)
    ensures Execute(Layout(target, default, []), data) == Returned(Verdict(target, default, map[], data))
  {
    var prog := Layout(target, default, []);
    assert prog[..4] == Header(target) && prog[4] == Stmt(RET_K, ToBpfRet(default));
    HeaderRuns(target, prog, data);
  }

  /** The compiled program of a strictly ascending rule list returns the verdict of its map, on every input. */
  lemma {:induction false} LayoutDecides(target: Target, default: SeccompAction, rules: seq<Rule>, data: SeccompData)
    requires StrictlyAscending(rules) && |rules| <= 255
    ensures Execute(Layout(target, default, rules), data)
         == Returned(Verdict(target, default, LastWins(rules), data))
  {
    if rules == [] {
      EmptyDecides(target, default, data);
    } else {
      LayoutSlots(target, default, rules);
      SlotsDecide(target, default, rules, Layout(target, default, rules), data);
    }
  }

  /** The kernel accepts every program the compiler returns. */
  lemma {:induction false} LayoutAccepted(target: Target, default: SeccompAction, rules: seq<Rule>)
    requires |rules| <= 255
    ensures AcceptedByKernel(Layout(target, default, rules))
  {
    var prog, n := Layout(target, default, rules), |rules|;
    forall pc | 0 <= pc < |prog|
      ensures InsnChecked(prog, pc)
    {
      if pc < 4 {
        assert prog[pc] == Header(target)[pc];
      } else if n > 0 {
        LayoutSlots(target, default, rules);
        if pc < 4 + n {
          assert prog[4 + (pc - 4)] == Jump(JMP_JEQ_K, I32AsU32(rules[pc - 4].nr), n, 0);
        } else if 5 + n <= pc < 2 * n + 5 {
          assert prog[5 + n + (pc - 5 - n)] == Stmt(RET_K, rules[pc - 5 - n].action);
        }
      }
    }
  }

  lemma {:induction false} SlotsDetermineRules(prog: seq<Insn>, a: seq<Rule>, b: seq<Rule>, ra: U32, rb: U32)
    requires HasSlots(prog, a, ra) && HasSlots(prog, b, rb)
    ensures a == b
  {
    assert |a| == |b|;
    forall i | 0 <= i < |a|
      ensures a[i] == b[i]
    {
      assert prog[4 + i].k == I32AsU32(a[i].nr) && prog[4 + i].k == I32AsU32(b[i].nr);
      assert prog[5 + |a| + i].k == a[i].action;
    }
  }

  /** The program determines its rules: two lists with one program are equal. */
  lemma {:induction false} LayoutInjective(target: Target, default: SeccompAction, a: seq<Rule>, b: seq<Rule>)
    requires |a| <= 255 && |b| <= 255
    requires Layout(target, default, a) == Layout(target, default, b)
    ensures a == b
  {
    if a != [] && b != [] {
      LayoutSlots(target, default, a);
      LayoutSlots(target, default, b);
      SlotsDetermineRules(Layout(target, default, a), a, b, ToBpfRet(default), ToBpfRet(default));
    }
  }

  // ----- the compiler -----

  /** A table node before patching. */
  function Unpatched(r: Rule): Insn {
    Jump(JMP_JEQ_K, I32AsU32(r.nr), 0, 0)
  }

  /** `after` is `before` followed by the nodes of the rules in `[lo, hi)`, in ascending order. */
  ghost predicate Emitted(before: seq<Insn>, after: seq<Insn>, rules: seq<Rule>, lo: nat, hi: nat) {
    && lo <= hi <= |rules|
    && |after| == |before| + (hi - lo)
    && (forall i :: 0 <= i < |before| ==> after[i] == before[i])
    && (forall i :: |before| <= i < |after| ==> after[i] == Unpatched(rules[lo + i - |before|]))
  }

  /** In-order emission: left part, node, right part make up the whole range. */
  lemma {:induction false} EmittedJoins(
    a: seq<Insn>, b: seq<Insn>, c: seq<Insn>, d: seq<Insn>, rules: seq<Rule>, lo: nat, mid: nat, hi: nat)
    requires mid < hi && Emitted(a, b, rules, lo, mid) && Emitted(c, d, rules, mid + 1, hi)
    requires c == b + [Unpatched(rules[mid])]
    ensures Emitted(a, d, rules, lo, hi)
  {
    forall i | |a| <= i < |d|
      ensures d[i] == Unpatched(rules[lo + i - |a|])
    {
      if i < |c| {
        assert d[i] == c[i];
      }
    }
  }

  /** `s` with the true-offset of the instructions in `[from, to)` set to `jt`. */
  ghost predicate PatchedBetween(before: seq<Insn>, after: seq<Insn>, from: nat, to: nat, jt: nat) {
    && |after| == |before|
    && jt <= 255
    && forall i :: 0 <= i < |before| ==>
         after[i] == if from <= i < to then before[i].(jt := jt) else before[i]
  }

  /** The `prog` vector that the compiler's functions push to and patch. */
  class ProgramVec {
    var insns: seq<Insn>

    constructor ()
      ensures insns == []
    {
      insns := [];
    }

    method Push(insn: Insn)
      modifies this
      ensures insns == old(insns) + [insn]
    {
      insns := insns + [insn];
    }

    /** `emit_table_node`: in-order emission of the rules in `[lo, hi)`, which lands rule `i` in slot `i`. */
    method EmitTableNode(rules: seq<Rule>, lo: nat, hi: nat)
      requires hi <= |rules|
      modifies this
      ensures if lo <= hi then Emitted(old(insns), insns, rules, lo, hi) else insns == old(insns)
      decreases hi - lo
    {
      if lo >= hi {
        return;
      }
      var mid := lo + (hi - lo) / 2;
      EmitTableNode(rules, lo, mid);
      ghost var left := insns;
      Push(Unpatched(rules[mid]));
      ghost var node := insns;
      EmitTableNode(rules, mid + 1, hi);
      EmittedJoins(old(insns), left, node, insns, rules, lo, mid, hi);
    }

    /**
     `patch_jump_node`: a second in-order walk that threads `node_idx`. The counter moves in step with the rule index,
     so every node of the range gets one and the same offset, and the first call, with the counter at `lo`, finds rule
     `mid` in slot `mid`. The preconditions are what keeps the source's `usize` arithmetic and indexing in range.
     */
    method PatchJumpNode(tableStart: nat, retStart: nat, rules: seq<Rule>, lo: nat, hi: nat, nodeIdx: nat)
      returns (ok: bool, nodeIdx': nat)
      requires hi <= |rules|
      requires lo < hi ==> tableStart + nodeIdx < retStart + lo && tableStart + nodeIdx + (hi - lo) <= |insns|
      modifies this
      ensures lo >= hi ==> ok && nodeIdx' == nodeIdx && insns == old(insns)
      ensures lo < hi ==> (ok <==> retStart + lo - tableStart - nodeIdx - 1 <= 255)
      ensures lo < hi && ok ==> nodeIdx' == nodeIdx + (hi - lo)
      ensures lo < hi && ok ==> PatchedBetween(old(insns), insns,
                                               tableStart + nodeIdx, tableStart + nodeIdx + (hi - lo),
                                               retStart + lo - tableStart - nodeIdx - 1)
      ensures !ok ==> insns == old(insns)
      decreases hi - lo
    {
      ok, nodeIdx' := true, nodeIdx;
      if lo >= hi {
        return;
      }
      var mid := lo + (hi - lo) / 2;
      ok, nodeIdx' := PatchJumpNode(tableStart, retStart, rules, lo, mid, nodeIdx');
      if !ok {
        return;
      }
      var jumpAbs := tableStart + nodeIdx';
      var retAbs := retStart + mid;
      var jt: nat := retAbs - jumpAbs - 1; // no `usize` underflow
      if jt > 255 {
        return false, nodeIdx';
      }
      var jt8: U8 := jt; // `jt as u8` loses nothing
      insns := insns[jumpAbs := insns[jumpAbs].(jt := jt8)];
      nodeIdx' := nodeIdx' + 1;
      ok, nodeIdx' := PatchJumpNode(tableStart, retStart, rules, mid + 1, hi, nodeIdx');
    }

    /** `emit_sorted_jump_table`: the table block is appended iff its offsets fit in a byte. */
    method EmitSortedJumpTable(rules: seq<Rule>, defaultRet: U32) returns (ok: bool)
      requires rules != []
      modifies this
      ensures ok <==> |rules| <= 255
      ensures ok ==> insns == old(insns) + TableBlock(rules, |rules|, defaultRet)
    {
      var n := |rules|;
      var tableStart := |insns|;
      EmitTableNode(rules, 0, n);
      assert insns == old(insns) + Table(rules, 0);
      var jaIdx := |insns|;
      Push(Stmt(JMP_JA, 0));
      var retStart := |insns|;
      ghost var before := insns;
      for i := 0 to n
        invariant insns == before + Returns(rules)[..i]
      {
        Push(Stmt(RET_K, rules[i].action));
        assert Returns(rules)[..i + 1] == Returns(rules)[..i] + [Stmt(RET_K, rules[i].action)];
      }
      assert Returns(rules)[..n] == Returns(rules);
      var defaultIdx := |insns|;
      Push(Stmt(RET_K, defaultRet));
      var skip: nat := defaultIdx - jaIdx - 1;
      insns := insns[jaIdx := insns[jaIdx].(k := UsizeAsU32(skip))];
      ghost var unpatched := insns;
      assert unpatched == old(insns) + TableBlock(rules, 0, defaultRet);
      var idx;
      ok, idx := PatchJumpNode(tableStart, retStart, rules, 0, n, 0);
      if ok {
        PatchTurnsBlock(old(insns), rules, defaultRet, insns);
      }
    }
  }

  /** Patching the emitted block's table with the distance N yields the block of the closed form. */
  lemma {:induction false} PatchTurnsBlock(prefix: seq<Insn>, rules: seq<Rule>, defaultRet: U32, after: seq<Insn>)
    requires 0 < |rules| <= 255
    requires PatchedBetween(prefix + TableBlock(rules, 0, defaultRet), after, |prefix|, |prefix| + |rules|, |rules|)
    ensures after == prefix + TableBlock(rules, |rules|, defaultRet)
  {
    var n := |rules|;
    var wanted := prefix + TableBlock(rules, n, defaultRet);
    var before := prefix + TableBlock(rules, 0, defaultRet);
    forall i | 0 <= i < |before|
      ensures after[i] == wanted[i]
    {
      if |prefix| <= i < |prefix| + n {
        assert before[i] == Table(rules, 0)[i - |prefix|] && wanted[i] == Table(rules, n)[i - |prefix|];
      }
    }
  }

  /**
   `compile_bpf`: succeeds iff there are at most 255 rules, with the closed-form program; the only possible error
   is the jump offset, never the 4096-instruction limit.
   */
  method CompileBpf(target: Target, default: SeccompAction, sorted: seq<Rule>)
    returns (r: Result<seq<Insn>, CompileError>)
    ensures r.Ok? <==> |sorted| <= 255
    ensures r.Ok? ==> r.value == Layout(target, default, sorted) && AcceptedByKernel(r.value)
    ensures r.Ok? && StrictlyAscending(sorted) ==>
              forall data :: Execute(r.value, data) == Returned(Verdict(target, default, LastWins(sorted), data))
    ensures r.Err? ==> r.error == JumpOffsetOverflow
  {
    var prog := new ProgramVec();
    prog.Push(Stmt(LD_W_ABS, ARCH_OFFSET));
    prog.Push(Jump(JMP_JEQ_K, target.AuditArch(), 1, 0));
    prog.Push(Stmt(RET_K, ToBpfRet(KillProcess)));
    prog.Push(Stmt(LD_W_ABS, NR_OFFSET));
    assert prog.insns == Header(target);
    if sorted != [] {
      var ok := prog.EmitSortedJumpTable(sorted, ToBpfRet(default));
      if !ok {
        return Err(JumpOffsetOverflow);
      }
    } else {
      prog.Push(Stmt(RET_K, ToBpfRet(default)));
    }
    if |prog.insns| > MAX_INSNS {
      return Err(ProgramTooLarge);
    }
    r := Ok(prog.insns);
    LayoutAccepted(target, default, sorted);
    if StrictlyAscending(sorted) {
      forall data: SeccompData
        ensures Execute(r.value, data) == Returned(Verdict(target, default, LastWins(sorted), data))
      {
        LayoutDecides(target, default, sorted, data);
      }
    }
  }
}
