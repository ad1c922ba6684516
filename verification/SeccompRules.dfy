/**
 Seccomp rules and their last-wins normal form: actions and their return words, the rule list as a
 map built by overwriting, and `dedup_rules` (stable sort, reverse, dedup, reverse).
 */
module SeccompRules {
  import opened MachineInts
  import opened Wrappers

  datatype SeccompAction = KillProcess | KillThread | Trap | Errno(errno: U16) | Log | Allow

  const RET_KILL_PROCESS: U32 := 0x8000_0000
  const RET_KILL_THREAD: U32 := 0x0000_0000
  const RET_TRAP: U32 := 0x0003_0000
  const RET_ERRNO: U32 := 0x0005_0000
  const RET_LOG: U32 := 0x7ffc_0000
  const RET_ALLOW: U32 := 0x7fff_0000

  /** `to_bpf_ret`. The low half of `SECCOMP_RET_ERRNO` is zero, so its bitwise or with a 16-bit errno is a sum. */
  function ToBpfRet(action: SeccompAction): U32 {
    match action
    case KillProcess => RET_KILL_PROCESS
    case KillThread => RET_KILL_THREAD
    case Trap => RET_TRAP
    case Errno(e) => RET_ERRNO + e
    case Log => RET_LOG
    case Allow => RET_ALLOW
  }

  /**
   What the kernel does with a filter's return word: the high half selects the action, the low half is its data, which
   only an errno uses. Other values stand for actions this library does not have.
   */
  function KernelAction(word: U32): Option<SeccompAction> {
    var selector, data := word / 0x1_0000, word % 0x1_0000;
    if selector == 0x8000 then Some(KillProcess)
    else if selector == 0x0000 then Some(KillThread)
    else if selector == 0x0003 then Some(Trap)
    else if selector == 0x0005 then Some(Errno(data))
    else if selector == 0x7ffc then Some(Log)
    else if selector == 0x7fff then Some(Allow)
    else None
  }

  /** The words this library hands to the kernel carry data for an errno only. */
  predicate IsActionWord(word: U32) {
    || word in {0x8000_0000, 0x0000_0000, 0x0003_0000, 0x7ffc_0000, 0x7fff_0000}
    || 0x0005_0000 <= word <= 0x0005_ffff
  }

  /** The kernel takes the action that was encoded, for all six actions and every errno. */
  lemma {:induction false} KernelTakesEncodedAction(action: SeccompAction)
    ensures KernelAction(ToBpfRet(action)) == Some(action)
    ensures IsActionWord(ToBpfRet(action))
  {
    match action
    case Errno(e) =>
      assert (0x0005_0000 + e) / 0x1_0000 == 5 && (0x0005_0000 + e) % 0x1_0000 == e;
    case _ =>
  }

  datatype Rule = Rule(nr: I32, action: U32)

  /** The rule list read as a map: each rule overwrites what earlier rules said about its syscall. */
  ghost function LastWins(rules: seq<Rule>): map<I32, U32> {
    if rules == [] then map[]
    else
      var last := rules[|rules| - 1];
      LastWins(rules[..|rules| - 1])[last.nr := last.action]
  }

  // ----- the vector operations of `dedup_rules` -----

  /** Inserts behind every rule whose number is not greater. */
  function InsertByKey(sorted: seq<Rule>, r: Rule): seq<Rule> {
    if sorted == [] || sorted[|sorted| - 1].nr <= r.nr then sorted + [r]
    else InsertByKey(sorted[..|sorted| - 1], r) + [sorted[|sorted| - 1]]
  }

  /** `sort_by_key(|r| r.syscall_nr)`: one stable sort; `CanonicalFromAnyStableSort` covers all others. */
  function SortByKey(rules: seq<Rule>): seq<Rule> {
    if rules == [] then []
    else InsertByKey(SortByKey(rules[..|rules| - 1]), rules[|rules| - 1])
  }

  /** `reverse()`. */
  function Reversed(rules: seq<Rule>): seq<Rule> {
    if rules == [] then [] else [rules[|rules| - 1]] + Reversed(rules[..|rules| - 1])
  }

  /** `dedup_by` on equal numbers: a rule is dropped when the last retained one has its number. */
  function DedupByKey(rules: seq<Rule>): seq<Rule> {
    if rules == [] then []
    else
      var kept := DedupByKey(rules[..|rules| - 1]);
      var r := rules[|rules| - 1];
      if kept != [] && kept[|kept| - 1].nr == r.nr then kept else kept + [r]
  }

  // ----- order and stability -----

  ghost predicate Ascending(rules: seq<Rule>) {
    forall i, j :: 0 <= i < j < |rules| ==> rules[i].nr <= rules[j].nr
  }

  ghost predicate StrictlyAscending(rules: seq<Rule>) {
    forall i, j :: 0 <= i < j < |rules| ==> rules[i].nr < rules[j].nr
  }

  ghost predicate Descending(rules: seq<Rule>) {
    forall i, j :: 0 <= i < j < |rules| ==> rules[i].nr >= rules[j].nr
  }

  ghost predicate StrictlyDescending(rules: seq<Rule>) {
    forall i, j :: 0 <= i < j < |rules| ==> rules[i].nr > rules[j].nr
  }

  /** The rules about one syscall, in list order. */
  ghost function WithKey(rules: seq<Rule>, nr: I32): seq<Rule> {
    if rules == [] then []
    else
      var rest := WithKey(rules[..|rules| - 1], nr);
      if rules[|rules| - 1].nr == nr then rest + [rules[|rules| - 1]] else rest
  }

  /** `sorted` is what a stable sort of `rules` may return: ascending, and equal keys keep their order. */
  ghost predicate IsStableSort(rules: seq<Rule>, sorted: seq<Rule>) {
    Ascending(sorted) && forall nr: I32 :: WithKey(sorted, nr) == WithKey(rules, nr)
  }

  lemma {:induction false} WithKeyAppend(rules: seq<Rule>, r: Rule, nr: I32)
    ensures WithKey(rules + [r], nr) == WithKey(rules, nr) + if r.nr == nr then [r] else []
  {
    assert (rules + [r])[..|rules|] == rules;
  }

  lemma {:induction false} AscendingAppend(rules: seq<Rule>, r: Rule)
    requires Ascending(rules) && (rules != [] ==> rules[|rules| - 1].nr <= r.nr)
    ensures Ascending(rules + [r])
  {
  }

  /** The insertion keeps the order, and the greatest number is last. */
  lemma {:induction false} InsertAscends(sorted: seq<Rule>, r: Rule)
    requires Ascending(sorted)
    ensures var ins := InsertByKey(sorted, r);
            && Ascending(ins) && ins != []
            && ins[|ins| - 1].nr
               == if sorted == [] || sorted[|sorted| - 1].nr <= r.nr then r.nr else sorted[|sorted| - 1].nr
  {
    if sorted == [] || sorted[|sorted| - 1].nr <= r.nr {
      AscendingAppend(sorted, r);
    } else {
      var init, last := sorted[..|sorted| - 1], sorted[|sorted| - 1];
      InsertAscends(init, r);
      AscendingAppend(InsertByKey(init, r), last);
    }
  }

  /** Among the rules about one syscall, the inserted one comes last. */
  lemma {:induction false} InsertIsStable(sorted: seq<Rule>, r: Rule, nr: I32)
    ensures WithKey(InsertByKey(sorted, r), nr) == WithKey(sorted, nr) + if r.nr == nr then [r] else []
  {
    if sorted == [] || sorted[|sorted| - 1].nr <= r.nr {
      WithKeyAppend(sorted, r, nr);
    } else {
      var init, last := sorted[..|sorted| - 1], sorted[|sorted| - 1];
      InsertIsStable(init, r, nr);
      WithKeyAppend(InsertByKey(init, r), last, nr);
    }
  }

  lemma {:induction false} SortAscends(rules: seq<Rule>)
    ensures Ascending(SortByKey(rules))
  {
    if rules == [] {
    } else {
      var init := rules[..|rules| - 1];
      SortAscends(init);
      InsertAscends(SortByKey(init), rules[|rules| - 1]);
    }
  }

  lemma {:induction false} SortIsStable(rules: seq<Rule>, nr: I32)
    ensures WithKey(SortByKey(rules), nr) == WithKey(rules, nr)
  {
    if rules == [] {
    } else {
      var init := rules[..|rules| - 1];
      SortIsStable(init, nr);
      InsertIsStable(SortByKey(init), rules[|rules| - 1], nr);
    }
  }

  lemma {:induction false} SortByKeyIsStable(rules: seq<Rule>)
    ensures IsStableSort(rules, SortByKey(rules))
  {
    SortAscends(rules);
    forall nr: I32
      ensures WithKey(SortByKey(rules), nr) == WithKey(rules, nr)
    {
      SortIsStable(rules, nr);
    }
  }

  /** What the map says about a syscall is the action of the last rule about it. */
  lemma {:induction false} LastWinsAt(rules: seq<Rule>, nr: I32)
    ensures nr in LastWins(rules) <==> WithKey(rules, nr) != []
    ensures nr in LastWins(rules) ==> LastWins(rules)[nr] == WithKey(rules, nr)[|WithKey(rules, nr)| - 1].action
  {
    if rules == [] {
    } else {
      LastWinsAt(rules[..|rules| - 1], nr);
    }
  }

  /** The map's keys are the numbers in the list. */
  lemma {:induction false} LastWinsKeys(rules: seq<Rule>, nr: I32)
    ensures nr in LastWins(rules) <==> exists i :: 0 <= i < |rules| && rules[i].nr == nr
  {
    if rules == [] {
    } else {
      var init := rules[..|rules| - 1];
      LastWinsKeys(init, nr);
      if nr in LastWins(rules) {
        if nr in LastWins(init) {
          var i :| 0 <= i < |init| && init[i].nr == nr;
          assert rules[i].nr == nr;
        } else {
          assert rules[|rules| - 1].nr == nr;
        }
      }
      if i :| 0 <= i < |rules| && rules[i].nr == nr {
        assert i < |init| ==> init[i].nr == nr;
      }
    }
  }

  /** A stable sort leaves the map unchanged. */
  lemma {:induction false} StableSortKeepsMap(rules: seq<Rule>, sorted: seq<Rule>)
    requires IsStableSort(rules, sorted)
    ensures LastWins(sorted) == LastWins(rules)
  {
    forall nr: I32
      ensures nr in LastWins(sorted) <==> nr in LastWins(rules)
      ensures nr in LastWins(sorted) ==> LastWins(sorted)[nr] == LastWins(rules)[nr]
    {
      LastWinsAt(sorted, nr);
      LastWinsAt(rules, nr);
    }
  }

  // ----- reverse and dedup -----

  lemma {:induction false} ReversedAt(rules: seq<Rule>)
    ensures |Reversed(rules)| == |rules|
    ensures forall i :: 0 <= i < |rules| ==> Reversed(rules)[i] == rules[|rules| - 1 - i]
  {
    if rules == [] {
    } else {
      ReversedAt(rules[..|rules| - 1]);
    }
  }

  /** Mirror image of `LastWins`: the first rule about a syscall stands. */
  ghost function FirstWins(rules: seq<Rule>): map<I32, U32> {
    if rules == [] then map[]
    else
      var m := FirstWins(rules[..|rules| - 1]);
      var r := rules[|rules| - 1];
      if r.nr in m then m else m[r.nr := r.action]
  }

  lemma {:induction false} FirstWinsCons(r: Rule, rules: seq<Rule>)
    ensures FirstWins([r] + rules) == FirstWins(rules)[r.nr := r.action]
  {
    var s := [r] + rules;
    if rules == [] {
      assert s[..|s| - 1] == [];
    } else {
      var init := rules[..|rules| - 1];
      assert s[..|s| - 1] == [r] + init;
      FirstWinsCons(r, init);
    }
  }

  lemma {:induction false} FirstWinsOfReversed(rules: seq<Rule>)
    ensures FirstWins(Reversed(rules)) == LastWins(rules)
  {
    if rules == [] {
    } else {
      var init := rules[..|rules| - 1];
      FirstWinsOfReversed(init);
      FirstWinsCons(rules[|rules| - 1], Reversed(init));
    }
  }

  lemma {:induction false} DedupKeepsFirst(rules: seq<Rule>)
    ensures FirstWins(DedupByKey(rules)) == FirstWins(rules)
  {
    if rules == [] {
    } else {
      var init, r := rules[..|rules| - 1], rules[|rules| - 1];
      DedupKeepsFirst(init);
      var kept := DedupByKey(init);
      if kept != [] && kept[|kept| - 1].nr == r.nr {
        assert r.nr in FirstWins(kept);
      } else {
        assert (kept + [r])[..|kept|] == kept;
      }
    }
  }

  lemma {:induction false} StrictAppend(rules: seq<Rule>, r: Rule)
    requires StrictlyDescending(rules) && (rules != [] ==> rules[|rules| - 1].nr > r.nr)
    ensures StrictlyDescending(rules + [r])
  {
  }

  lemma {:induction false} DedupIsStrict(rules: seq<Rule>)
    requires Descending(rules)
    ensures var kept := DedupByKey(rules);
            && StrictlyDescending(kept) && (rules == [] <==> kept == [])
            && (rules != [] ==> kept[|kept| - 1].nr == rules[|rules| - 1].nr)
  {
    if rules == [] {
    } else {
      var init, r := rules[..|rules| - 1], rules[|rules| - 1];
      DedupIsStrict(init);
      var kept := DedupByKey(init);
      if kept == [] || kept[|kept| - 1].nr != r.nr {
        StrictAppend(kept, r);
      }
    }
  }

  lemma {:induction false} ReversedDescends(sorted: seq<Rule>)
    requires Ascending(sorted)
    ensures Descending(Reversed(sorted))
  {
    ReversedAt(sorted);
  }

  lemma {:induction false} ReversedAscends(kept: seq<Rule>)
    requires StrictlyDescending(kept)
    ensures StrictlyAscending(Reversed(kept))
  {
    ReversedAt(kept);
  }

  lemma {:induction false} ReversedTwice(rules: seq<Rule>)
    ensures Reversed(Reversed(rules)) == rules
  {
    ReversedAt(rules);
    ReversedAt(Reversed(rules));
  }

  /** Reverse, dedup, reverse turns any ascending list into a strictly ascending one with the same map. */
  lemma {:induction false} DedupPipeline(sorted: seq<Rule>)
    requires Ascending(sorted)
    ensures StrictlyAscending(Reversed(DedupByKey(Reversed(sorted))))
    ensures LastWins(Reversed(DedupByKey(Reversed(sorted)))) == LastWins(sorted)
  {
    var down := Reversed(sorted);
    ReversedDescends(sorted);
    DedupIsStrict(down);
    var kept := DedupByKey(down);
    ReversedAscends(kept);
    ReversedTwice(kept);
    FirstWinsOfReversed(Reversed(kept));
    DedupKeepsFirst(down);
    FirstWinsOfReversed(sorted);
  }

  // ----- canonical form -----

  /** The normal form of a rule list, as a value: what `DedupRules` leaves in its vector. */
  ghost function Canonical(rules: seq<Rule>): seq<Rule> {
    Reversed(DedupByKey(Reversed(SortByKey(rules))))
  }

  /** A strictly ascending list has one rule per key. */
  lemma {:induction false} StrictListCountsKeys(rules: seq<Rule>)
    requires StrictlyAscending(rules)
    ensures |LastWins(rules)| == |rules|
    ensures forall i :: 0 <= i < |rules| ==>
              rules[i].nr in LastWins(rules) && LastWins(rules)[rules[i].nr] == rules[i].action
  {
    if rules == [] {
    } else {
      var init, last := rules[..|rules| - 1], rules[|rules| - 1];
      StrictListCountsKeys(init);
      LastWinsKeys(init, last.nr);
      assert LastWins(rules).Keys == LastWins(init).Keys + {last.nr};
      assert |LastWins(rules).Keys| == |LastWins(init).Keys| + 1;
    }
  }

  lemma {:induction false} LastKeyBounds(a: seq<Rule>, b: seq<Rule>)
    requires StrictlyAscending(a) && StrictlyAscending(b)
    requires a != [] && LastWins(a) == LastWins(b)
    ensures b != [] && a[|a| - 1].nr <= b[|b| - 1].nr
  {
    var k := a[|a| - 1].nr;
    LastWinsKeys(a, k);
    LastWinsKeys(b, k);
    var i :| 0 <= i < |b| && b[i].nr == k;
    assert i < |b| - 1 ==> b[i].nr < b[|b| - 1].nr;
  }

  /** Taking the last rule off a strictly ascending list takes its key out of the map. */
  lemma {:induction false} LastRuleInMap(rules: seq<Rule>)
    requires StrictlyAscending(rules) && rules != []
    ensures var last, m := rules[|rules| - 1], LastWins(rules);
            && last.nr in m && m[last.nr] == last.action
            && LastWins(rules[..|rules| - 1]) == m - {last.nr}
  {
    LastWinsKeys(rules[..|rules| - 1], rules[|rules| - 1].nr);
  }

  lemma {:induction false} SameLength(a: seq<Rule>, b: seq<Rule>)
    requires StrictlyAscending(a) && StrictlyAscending(b) && LastWins(a) == LastWins(b)
    ensures |a| == |b|
  {
    StrictListCountsKeys(a);
    StrictListCountsKeys(b);
  }

  /** The map determines the strictly ascending list. */
  lemma {:induction false} CanonicalIsUnique(a: seq<Rule>, b: seq<Rule>)
    requires StrictlyAscending(a) && StrictlyAscending(b)
    requires LastWins(a) == LastWins(b)
    ensures a == b
  {
    SameLength(a, b);
    if a == [] {
    } else {
      LastKeyBounds(a, b);
      LastKeyBounds(b, a);
      LastRuleInMap(a);
      LastRuleInMap(b);
      CanonicalIsUnique(a[..|a| - 1], b[..|b| - 1]);
      assert a == a[..|a| - 1] + [a[|a| - 1]] && b == b[..|b| - 1] + [b[|b| - 1]];
    }
  }

  /** `dedup_rules` refines the overwrite map: strictly ascending, one rule per syscall, the last inserted one. */
  lemma {:induction false} CanonicalRefinesMap(rules: seq<Rule>)
    ensures StrictlyAscending(Canonical(rules))
    ensures LastWins(Canonical(rules)) == LastWins(rules)
    ensures |Canonical(rules)| == |LastWins(rules)|
  {
    SortByKeyIsStable(rules);
    StableSortKeepsMap(rules, SortByKey(rules));
    DedupPipeline(SortByKey(rules));
    StrictListCountsKeys(Canonical(rules));
  }

  /** Every stable sort gives the same normal form, whatever algorithm the standard library uses. */
  lemma {:induction false} CanonicalFromAnyStableSort(rules: seq<Rule>, sorted: seq<Rule>)
    requires IsStableSort(rules, sorted)
    ensures Reversed(DedupByKey(Reversed(sorted))) == Canonical(rules)
  {
    StableSortKeepsMap(rules, sorted);
    DedupPipeline(sorted);
    CanonicalRefinesMap(rules);
    CanonicalIsUnique(Reversed(DedupByKey(Reversed(sorted))), Canonical(rules));
  }

  /** Two rule lists have one normal form exactly when they say the same about every syscall. */
  lemma {:induction false} CanonicalIffSameMap(a: seq<Rule>, b: seq<Rule>)
    ensures Canonical(a) == Canonical(b) <==> LastWins(a) == LastWins(b)
  {
    CanonicalRefinesMap(a);
    CanonicalRefinesMap(b);
    if LastWins(a) == LastWins(b) {
      CanonicalIsUnique(Canonical(a), Canonical(b));
    }
  }

  /** Stability is needed: a sort that may swap equal keys lets the earlier rule win. */
  lemma {:induction false} UnstableSortLosesLastWins()
    ensures exists rules: seq<Rule>, sorted ::
              && Ascending(sorted) && multiset(sorted) == multiset(rules)
              && LastWins(Reversed(DedupByKey(Reversed(sorted)))) != LastWins(rules)
  {
    var allow, kill := Rule(1, RET_ALLOW), Rule(1, RET_KILL_PROCESS);
    var rules, sorted := [allow, kill], [kill, allow];
    assert multiset(sorted) == multiset(rules);
    DedupPipeline(sorted);
    assert sorted[..1] == [kill] && rules[..1] == [allow];
    assert LastWins(sorted)[1] == RET_ALLOW && LastWins(rules)[1] == RET_KILL_PROCESS;
  }

  /** `dedup_rules`: the four vector operations in place. */
  method DedupRules(rules: seq<Rule>) returns (sorted: seq<Rule>)
    ensures StrictlyAscending(sorted)
    ensures LastWins(sorted) == LastWins(rules)
    ensures sorted == Canonical(rules) && |sorted| == |LastWins(rules)|
  {
    CanonicalRefinesMap(rules);
    sorted := rules;
    sorted := SortByKey(sorted);
    sorted := Reversed(sorted);
    sorted := DedupByKey(sorted);
    sorted := Reversed(sorted);
  }
}
