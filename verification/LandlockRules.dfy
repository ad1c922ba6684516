/**
 The landlock translation (src/landlock/mod.rs): from an access decision to `(path, mask)` rules, through the mechanism
 floor that skips missing and repeated paths and narrows masks by file type, to the rights granted at each location.
 Landlock grants a right at a location when some rule at or above it carries the right.
 */
module LandlockRules {
  datatype Right =
    | Execute | WriteFile | ReadFile | ReadDir | RemoveDir | RemoveFile
    | MakeChar | MakeDir | MakeReg | MakeSock | MakeFifo | MakeBlock | MakeSym
    | Refer | Truncate | IoctlDev

  /** The landlock versions that differ in filesystem rights. */
  datatype Abi = V1 | V2 | V3 | V5

  const BASE: set<Right> :=
    {Execute, WriteFile, ReadFile, ReadDir, RemoveDir, RemoveFile,
     MakeChar, MakeDir, MakeReg, MakeSock, MakeFifo, MakeBlock, MakeSym}

  /** `AccessFs::from_all(abi)`. */
  function FromAll(abi: Abi): set<Right> {
    match abi
    case V1 => BASE
    case V2 => BASE + {Refer}
    case V3 => BASE + {Refer, Truncate}
    case V5 => BASE + {Refer, Truncate, IoctlDev}
  }

  /** Each version adds its rights to those of the one before, and none is ever dropped. */
  lemma {:induction false} HandledRightsExactly(abi: Abi, right: Right)
    ensures right in FromAll(abi) <==>
              match right
              case Refer => !abi.V1?
              case Truncate => abi.V3? || abi.V5?
              case IoctlDev => abi.V5?
              case _ => true
  {
  }

  /** `AccessFs::from_read(abi)`. */
  const FROM_READ: set<Right> := {Execute, ReadFile, ReadDir}

  /** Rights that apply to a file that is not a directory. */
  const FILE_RIGHTS: set<Right> := {Execute, WriteFile, ReadFile, Truncate, IoctlDev}

  /** `AccessFs::from_file(abi)`. */
  function FromFile(abi: Abi): set<Right> {
    FromAll(abi) * FILE_RIGHTS
  }

  type Path = seq<string>

  /** What a path names: a location after resolving links, and whether it is a directory. */
  datatype Entry = Entry(location: Path, isDir: bool)

  /** The existing paths; different spellings may name one location. */
  type Tree = map<Path, Entry>

  datatype Rule = Rule(path: Path, desired: set<Right>)

  /** A rule in the kernel's ruleset. */
  datatype Added = Added(path: Path, entry: Entry, mask: set<Right>)

  /** `legal_mask`. */
  function LegalMask(desired: set<Right>, isDir: bool, abi: Abi): set<Right> {
    if isDir then desired else desired * FromFile(abi)
  }

  predicate MentionsPath(rules: seq<Rule>, path: Path) {
    exists i :: 0 <= i < |rules| && rules[i].path == path
  }

  /** The rules that reach the kernel: existing paths, the first rule for each, with the narrowed mask. */
  function Kept(rules: seq<Rule>, tree: Tree, abi: Abi): seq<Added> {
    if rules == [] then []
    else
      var init, r := rules[..|rules| - 1], rules[|rules| - 1];
      if r.path !in tree || MentionsPath(init, r.path) then Kept(init, tree, abi)
      else Kept(init, tree, abi) + [Added(r.path, tree[r.path], LegalMask(r.desired, tree[r.path].isDir, abi))]
  }

  /** The right is granted at a location by the ruleset. */
  ghost predicate Granted(added: seq<Added>, right: Right, location: Path) {
    exists i :: 0 <= i < |added| && added[i].entry.location <= location && right in added[i].mask
  }

  /** The right is asked for at a location by some rule about an existing path, repeated or not. */
  ghost predicate Asked(rules: seq<Rule>, tree: Tree, abi: Abi, right: Right, location: Path) {
    exists r :: r in rules && AsksAt(r, tree, abi, right, location)
  }

  ghost predicate AsksAt(r: Rule, tree: Tree, abi: Abi, right: Right, location: Path) {
    && r.path in tree && tree[r.path].location <= location
    && right in LegalMask(r.desired, tree[r.path].isDir, abi)
  }

  // ----- the mechanism floor -----

  /** The kernel rule that rule `i` turns into. */
  function Narrowed(rules: seq<Rule>, tree: Tree, abi: Abi, i: nat): Added
    requires i < |rules| && rules[i].path in tree
  {
    var entry := tree[rules[i].path];
    Added(rules[i].path, entry, LegalMask(rules[i].desired, entry.isDir, abi))
  }

  /** Rule `i` is about an existing path that no earlier rule mentions. */
  predicate Leads(rules: seq<Rule>, tree: Tree, i: nat) {
    i < |rules| && rules[i].path in tree && !MentionsPath(rules[..i], rules[i].path)
  }

  /** A leading rule is kept, with its narrowed mask. */
  lemma {:induction false} KeptFirst(rules: seq<Rule>, tree: Tree, abi: Abi, i: nat)
    requires Leads(rules, tree, i)
    ensures Narrowed(rules, tree, abi, i) in Kept(rules, tree, abi)
  {
    var init := rules[..|rules| - 1];
    if i == |init| {
    } else {
      assert init[..i] == rules[..i];
      KeptFirst(init, tree, abi, i);
    }
  }

  /** Every kept rule is a leading rule of the list. */
  lemma {:induction false} KeptComesFrom(rules: seq<Rule>, tree: Tree, abi: Abi, a: Added) returns (i: nat)
    requires a in Kept(rules, tree, abi)
    ensures Leads(rules, tree, i) && a == Narrowed(rules, tree, abi, i)
  {
    var init := rules[..|rules| - 1];
    if a in Kept(init, tree, abi) {
      i := KeptComesFrom(init, tree, abi, a);
      assert init[..i] == rules[..i];
    } else {
      i := |rules| - 1;
    }
  }

  /** The first rule about a mentioned path. */
  lemma {:induction false} FirstMention(rules: seq<Rule>, path: Path) returns (i: nat)
    requires MentionsPath(rules, path)
    ensures i < |rules| && rules[i].path == path && forall j :: 0 <= j < i ==> rules[j].path != path
  {
    var init := rules[..|rules| - 1];
    if MentionsPath(init, path) {
      i := FirstMention(init, path);
    } else {
      i :| 0 <= i < |rules| && rules[i].path == path;
      forall j | 0 <= j < |init|
        ensures rules[j].path != path
      {
        assert init[j] == rules[j];
      }
    }
  }

  /** Some leading rule at or above the location carries the right: a condition on the caller's list and the tree. */
  ghost predicate LeaderCarries(rules: seq<Rule>, tree: Tree, abi: Abi, right: Right, location: Path) {
    exists k: nat :: Leads(rules, tree, k) && AsksAt(rules[k], tree, abi, right, location)
  }

  lemma {:induction false} GrantHasLeader(rules: seq<Rule>, tree: Tree, abi: Abi, right: Right, location: Path)
    requires Granted(Kept(rules, tree, abi), right, location)
    ensures LeaderCarries(rules, tree, abi, right, location)
  {
    var added := Kept(rules, tree, abi);
    var n :| 0 <= n < |added| && added[n].entry.location <= location && right in added[n].mask;
    var k := KeptComesFrom(rules, tree, abi, added[n]);
    assert Leads(rules, tree, k) && AsksAt(rules[k], tree, abi, right, location);
  }

  lemma {:induction false} LeaderGrants(rules: seq<Rule>, tree: Tree, abi: Abi, right: Right, location: Path)
    requires LeaderCarries(rules, tree, abi, right, location)
    ensures Granted(Kept(rules, tree, abi), right, location)
  {
    var added := Kept(rules, tree, abi);
    var k: nat :| Leads(rules, tree, k) && AsksAt(rules[k], tree, abi, right, location);
    KeptFirst(rules, tree, abi, k);
    var n :| 0 <= n < |added| && added[n] == Narrowed(rules, tree, abi, k);
    assert added[n].entry.location <= location && right in added[n].mask;
  }

  /** What the ruleset grants, read off the list: exactly what its leading rules ask for. */
  lemma {:induction false} GrantedByLeaders(rules: seq<Rule>, tree: Tree, abi: Abi, right: Right, location: Path)
    ensures Granted(Kept(rules, tree, abi), right, location) <==> LeaderCarries(rules, tree, abi, right, location)
  {
    if Granted(Kept(rules, tree, abi), right, location) {
      GrantHasLeader(rules, tree, abi, right, location);
    }
    if LeaderCarries(rules, tree, abi, right, location) {
      LeaderGrants(rules, tree, abi, right, location);
    }
  }

  /**
   Rule `i` loses nothing: each right of its narrowed mask is carried by a leading rule at or above its location. A
   caller can check this before the call.
   */
  ghost predicate RuleCovered(rules: seq<Rule>, tree: Tree, abi: Abi, i: nat)
    requires i < |rules|
  {
    rules[i].path in tree ==>
      forall right :: right in Narrowed(rules, tree, abi, i).mask ==>
        LeaderCarries(rules, tree, abi, right, tree[rules[i].path].location)
  }

  /** Rights only grow downwards: no ruleset can carve a read-only hole out of a writable tree. */
  lemma {:induction false} GrantsGrowDownwards(added: seq<Added>, right: Right, above: Path, below: Path)
    requires Granted(added, right, above) && above <= below
    ensures Granted(added, right, below)
  {
    var i :| 0 <= i < |added| && added[i].entry.location <= above && right in added[i].mask;
    assert added[i].entry.location <= below;
  }

  /** At every location the ruleset grants what the rules ask for, repeated ones included. */
  ghost predicate LosesNothing(rules: seq<Rule>, tree: Tree, abi: Abi) {
    forall right, location ::
      Granted(Kept(rules, tree, abi), right, location) <==> Asked(rules, tree, abi, right, location)
  }

  lemma {:induction false} LosslessCoversRule(rules: seq<Rule>, tree: Tree, abi: Abi, i: nat)
    requires LosesNothing(rules, tree, abi) && i < |rules|
    ensures RuleCovered(rules, tree, abi, i)
  {
    if rules[i].path in tree {
      var location := tree[rules[i].path].location;
      forall right | right in Narrowed(rules, tree, abi, i).mask
        ensures LeaderCarries(rules, tree, abi, right, location)
      {
        assert rules[i] in rules && AsksAt(rules[i], tree, abi, right, location);
        assert Asked(rules, tree, abi, right, location);
        GrantedByLeaders(rules, tree, abi, right, location);
      }
    }
  }

  lemma {:induction false} CoveredIsLossless(rules: seq<Rule>, tree: Tree, abi: Abi, right: Right, location: Path)
    requires forall i :: 0 <= i < |rules| ==> RuleCovered(rules, tree, abi, i)
    ensures Granted(Kept(rules, tree, abi), right, location) <==> Asked(rules, tree, abi, right, location)
  {
    GrantedByLeaders(rules, tree, abi, right, location);
    if LeaderCarries(rules, tree, abi, right, location) {
      var k: nat :| Leads(rules, tree, k) && AsksAt(rules[k], tree, abi, right, location);
      assert rules[k] in rules;
    }
    if Asked(rules, tree, abi, right, location) {
      var r :| r in rules && AsksAt(r, tree, abi, right, location);
      var i :| 0 <= i < |rules| && rules[i] == r;
      var own := tree[r.path].location;
      assert RuleCovered(rules, tree, abi, i) && right in Narrowed(rules, tree, abi, i).mask;
      GrantedByLeaders(rules, tree, abi, right, own);
      GrantsGrowDownwards(Kept(rules, tree, abi), right, own, location);
    }
  }

  /**
   Skipping repeated paths loses no right, anywhere, if and only if every right that a rule asks for is carried by a
   first rule for some path at or above it. The condition is about the list and the tree alone.
   */
  lemma {:induction false} DroppingDuplicatesExactly(rules: seq<Rule>, tree: Tree, abi: Abi)
    ensures LosesNothing(rules, tree, abi) <==> forall i :: 0 <= i < |rules| ==> RuleCovered(rules, tree, abi, i)
  {
    if LosesNothing(rules, tree, abi) {
      forall i | 0 <= i < |rules|
        ensures RuleCovered(rules, tree, abi, i)
      {
        LosslessCoversRule(rules, tree, abi, i);
      }
    }
    if forall i :: 0 <= i < |rules| ==> RuleCovered(rules, tree, abi, i) {
      forall right, location
        ensures Granted(Kept(rules, tree, abi), right, location) <==> Asked(rules, tree, abi, right, location)
      {
        CoveredIsLossless(rules, tree, abi, right, location);
      }
    }
  }

  /** It does lose rights on the floor when a narrower mask comes first. */
  lemma {:induction false} NarrowFirstLosesWrite(abi: Abi)
    ensures var rules := [Rule([], FROM_READ), Rule([], FromAll(abi))];
            var tree := map[[] := Entry([], true)];
            Asked(rules, tree, abi, WriteFile, []) && !Granted(Kept(rules, tree, abi), WriteFile, [])
  {
    var rules := [Rule([], FROM_READ), Rule([], FromAll(abi))];
    var tree := map[[] := Entry([], true)];
    assert rules[1] in rules && AsksAt(rules[1], tree, abi, WriteFile, []);
    assert MentionsPath(rules[..1], []) by { assert rules[..1][0].path == []; }
    forall k: nat | Leads(rules, tree, k)
      ensures !AsksAt(rules[k], tree, abi, WriteFile, [])
    {
      assert k == 0;
    }
    GrantedByLeaders(rules, tree, abi, WriteFile, []);
  }

  const DIRECTORY_ONLY: set<Right> :=
    {ReadDir, RemoveDir, RemoveFile, MakeChar, MakeDir, MakeReg, MakeSock, MakeFifo, MakeBlock, MakeSym, Refer}

  /** Narrowing drops exactly the directory-only and the unhandled rights of a file, and nothing of a directory. */
  lemma {:induction false} LegalMaskExactly(desired: set<Right>, isDir: bool, abi: Abi, right: Right)
    ensures right in LegalMask(desired, isDir, abi)
       <==> right in desired && (isDir || (right in FromAll(abi) && right !in DIRECTORY_ONLY))
  {
  }

  /**
   A right that the version does not handle, in the first rule for a path: on a directory it makes the whole build fail,
   on a file it is dropped without a word, and only a mask with nothing left is refused.
   */
  lemma {:induction false} UnhandledRightExactly(rules: seq<Rule>, tree: Tree, env: Env, abi: Abi, i: nat, right: Right)
    requires Leads(rules, tree, i) && right in rules[i].desired && right !in FromAll(abi)
    ensures tree[rules[i].path].isDir ==> !AllAccepted(Kept(rules, tree, abi), env, abi)
    ensures !tree[rules[i].path].isDir ==>
              && right !in Narrowed(rules, tree, abi, i).mask
              && (AddRuleOk(Narrowed(rules, tree, abi, i), abi) <==> rules[i].desired * FromFile(abi) != {})
  {
    if tree[rules[i].path].isDir {
      assert right in Narrowed(rules, tree, abi, i).mask;
      OneRejected(rules, i, tree, env, abi);
    }
  }

  /** A skipped rule never makes the build fail, whatever its mask: acceptance depends on the leading rules alone. */
  lemma {:induction false} AcceptedByLeaders(rules: seq<Rule>, tree: Tree, env: Env, abi: Abi)
    ensures AllAccepted(Kept(rules, tree, abi), env, abi) <==>
              forall i: nat :: Leads(rules, tree, i) ==>
                rules[i].path in env.openable && AddRuleOk(Narrowed(rules, tree, abi, i), abi)
  {
    var added := Kept(rules, tree, abi);
    if AllAccepted(added, env, abi) {
      forall i: nat | Leads(rules, tree, i)
        ensures rules[i].path in env.openable && AddRuleOk(Narrowed(rules, tree, abi, i), abi)
      {
        KeptFirst(rules, tree, abi, i);
        var k :| 0 <= k < |added| && added[k] == Narrowed(rules, tree, abi, i);
      }
    } else {
      var k :| 0 <= k < |added| && !(added[k].path in env.openable && AddRuleOk(added[k], abi));
      var i := KeptComesFrom(rules, tree, abi, added[k]);
    }
  }

  /** A path that is not a directory never carries a directory-only right, whatever masks the caller passes. */
  lemma {:induction false} FilesGetFileRights(rules: seq<Rule>, tree: Tree, abi: Abi, a: Added)
    requires a in Kept(rules, tree, abi) && !a.entry.isDir
    ensures a.mask <= FILE_RIGHTS
  {
    var i := KeptComesFrom(rules, tree, abi, a);
  }

  /** `add_rule` accepts a mask that is not empty, is handled, and fits the file type. */
  predicate AddRuleOk(a: Added, abi: Abi) {
    a.mask != {} && a.mask <= FromAll(abi) && (!a.entry.isDir ==> a.mask <= FILE_RIGHTS)
  }

  /** The kernel side: is landlock at this version available, and which paths can be opened. */
  datatype Env = Env(supported: bool, openable: set<Path>)

  datatype BuildResult = Built(added: seq<Added>) | Unsupported | CannotOpen(path: Path) | RuleRejected(path: Path)

  ghost predicate AllAccepted(added: seq<Added>, env: Env, abi: Abi) {
    forall k :: 0 <= k < |added| ==> added[k].path in env.openable && AddRuleOk(added[k], abi)
  }

  /** Rule `i` opens and is legal. */
  ghost predicate RuleOk(rules: seq<Rule>, tree: Tree, env: Env, abi: Abi, i: nat)
    requires i < |rules| && rules[i].path in tree
  {
    rules[i].path in env.openable && AddRuleOk(Narrowed(rules, tree, abi, i), abi)
  }

  /** The leading rules among the first `i` open and are legal. */
  ghost predicate OkUpTo(rules: seq<Rule>, tree: Tree, env: Env, abi: Abi, i: nat) {
    forall j: nat :: j < i && Leads(rules, tree, j) ==> RuleOk(rules, tree, env, abi, j)
  }

  /** Rule `k` is the first leading rule that does not open or is not legal. */
  ghost predicate FirstRejected(rules: seq<Rule>, tree: Tree, env: Env, abi: Abi, k: nat) {
    Leads(rules, tree, k) && !RuleOk(rules, tree, env, abi, k) && OkUpTo(rules, tree, env, abi, k)
  }

  /** The error is that of the first rejected rule. */
  ghost predicate BlamesFirst(rules: seq<Rule>, tree: Tree, env: Env, abi: Abi, path: Path, cannotOpen: bool) {
    exists k: nat :: FirstRejected(rules, tree, env, abi, k) && rules[k].path == path
                     && (cannotOpen <==> path !in env.openable)
  }

  /** The `seen` set holds the existing paths of the first `i` rules. */
  ghost predicate Seen(seen: set<Path>, rules: seq<Rule>, tree: Tree, i: nat)
    requires i <= |rules|
  {
    forall p :: p in seen <==> p in tree && MentionsPath(rules[..i], p)
  }

  lemma {:induction false} SeenStep(seen: set<Path>, rules: seq<Rule>, tree: Tree, i: nat)
    requires i < |rules| && Seen(seen, rules, tree, i)
    ensures Leads(rules, tree, i) <==> rules[i].path in tree && rules[i].path !in seen
    ensures Seen(if rules[i].path in tree then seen + {rules[i].path} else seen, rules, tree, i + 1)
  {
    StepPaths(rules, i);
  }

  lemma {:induction false} AllOkAccepted(rules: seq<Rule>, tree: Tree, env: Env, abi: Abi)
    requires OkUpTo(rules, tree, env, abi, |rules|)
    ensures AllAccepted(Kept(rules, tree, abi), env, abi)
  {
    AcceptedByLeaders(rules, tree, env, abi);
  }

  /** `build_ruleset`: the loop over the rules with its `seen` set. */
  method BuildRuleset(abi: Abi, rules: seq<Rule>, tree: Tree, env: Env) returns (r: BuildResult)
    ensures r.Built? <==> env.supported && AllAccepted(Kept(rules, tree, abi), env, abi)
    ensures r.Built? ==> r.added == Kept(rules, tree, abi)
    ensures r.Unsupported? <==> !env.supported
    ensures r.CannotOpen? || r.RuleRejected? ==> BlamesFirst(rules, tree, env, abi, r.path, r.CannotOpen?)
    ensures r.Built? ==> forall a :: a in r.added && !a.entry.isDir ==> a.mask <= FILE_RIGHTS
  {
    if !env.supported {
      return Unsupported;
    }
    var created: seq<Added> := [];
    var seen: set<Path> := {};
    for i := 0 to |rules|
      invariant created == Kept(rules[..i], tree, abi)
      invariant Seen(seen, rules, tree, i) && OkUpTo(rules, tree, env, abi, i)
    {
      var path := rules[i].path;
      SeenStep(seen, rules, tree, i);
      KeptStep(rules, i, tree, abi);
      if path !in tree || path in seen {
        assert path in tree ==> seen + {path} == seen;
        continue;
      }
      seen := seen + {path};
      var a := Narrowed(rules, tree, abi, i);
      if path !in env.openable {
        OneRejected(rules, i, tree, env, abi);
        assert FirstRejected(rules, tree, env, abi, i);
        return CannotOpen(path);
      }
      if !AddRuleOk(a, abi) {
        OneRejected(rules, i, tree, env, abi);
        assert FirstRejected(rules, tree, env, abi, i);
        return RuleRejected(path);
      }
      created := created + [a];
    }
    assert rules[..|rules|] == rules;
    AllOkAccepted(rules, tree, env, abi);
    r := Built(created);
    forall a | a in r.added && !a.entry.isDir
      ensures a.mask <= FILE_RIGHTS
    {
      FilesGetFileRights(rules, tree, abi, a);
    }
  }

  lemma {:induction false} KeptStep(rules: seq<Rule>, i: nat, tree: Tree, abi: Abi)
    requires i < |rules|
    ensures Kept(rules[..i + 1], tree, abi) == Kept(rules[..i], tree, abi)
              + if Leads(rules, tree, i) then [Narrowed(rules, tree, abi, i)] else []
  {
    assert rules[..i + 1][..i] == rules[..i];
  }

  /** One unopenable or illegal rule that is not skipped stops the whole build. */
  lemma {:induction false} OneRejected(rules: seq<Rule>, i: nat, tree: Tree, env: Env, abi: Abi)
    requires Leads(rules, tree, i)
    requires rules[i].path !in env.openable || !AddRuleOk(Narrowed(rules, tree, abi, i), abi)
    ensures !AllAccepted(Kept(rules, tree, abi), env, abi)
    ensures Narrowed(rules, tree, abi, i) in Kept(rules, tree, abi)
  {
    KeptFirst(rules, tree, abi, i);
    var added := Kept(rules, tree, abi);
    var k :| 0 <= k < |added| && added[k] == Narrowed(rules, tree, abi, i);
  }

  lemma {:induction false} StepPaths(rules: seq<Rule>, i: nat)
    requires i < |rules|
    ensures forall p :: MentionsPath(rules[..i + 1], p) <==> MentionsPath(rules[..i], p) || p == rules[i].path
  {
    forall p
      ensures MentionsPath(rules[..i + 1], p) <==> MentionsPath(rules[..i], p) || p == rules[i].path
    {
      if MentionsPath(rules[..i], p) {
        var k :| 0 <= k < i && rules[..i][k].path == p;
        assert rules[..i + 1][k].path == p;
      }
      if p == rules[i].path {
        assert rules[..i + 1][i].path == p;
      }
      if MentionsPath(rules[..i + 1], p) && p != rules[i].path {
        var k :| 0 <= k < i + 1 && rules[..i + 1][k].path == p;
        assert rules[..i][k].path == p;
      }
    }
  }

  // ----- the policy preset -----

  datatype ReadPolicy = Broad | Narrow(paths: seq<Path>)

  datatype AccessDecision = AccessDecision(read: ReadPolicy, writable: seq<Path>)

  const REQUIRED_ABI := V3
  const ROOT: Path := []

  function ReadPaths(decision: AccessDecision): seq<Path> {
    match decision.read
    case Broad => [ROOT]
    case Narrow(paths) => paths
  }

  function RulesFor(paths: seq<Path>, mask: set<Right>): (rules: seq<Rule>)
    ensures |rules| == |paths|
    ensures forall i :: 0 <= i < |paths| ==> rules[i] == Rule(paths[i], mask)
  {
    if paths == [] then [] else RulesFor(paths[..|paths| - 1], mask) + [Rule(paths[|paths| - 1], mask)]
  }

  /** Writable paths first, with every right; then the read paths. */
  function PresetRules(decision: AccessDecision): seq<Rule> {
    RulesFor(decision.writable, FromAll(REQUIRED_ABI)) + RulesFor(ReadPaths(decision), FROM_READ)
  }

  /** A listed path that exists, at or above the location, confers the right for its file type. */
  ghost predicate Confers(paths: seq<Path>, mask: set<Right>, tree: Tree, right: Right, location: Path) {
    exists p :: p in paths && AsksAt(Rule(p, mask), tree, REQUIRED_ABI, right, location)
  }

  /** Full access beneath `p`: every right but `IoctlDev` on a directory, those that apply to files on a file. */
  ghost predicate FullAt(p: Path, tree: Tree, right: Right, location: Path) {
    && p in tree && tree[p].location <= location
    && if tree[p].isDir then right != IoctlDev else right in {Execute, WriteFile, ReadFile, Truncate}
  }

  /** Read access beneath `p`: execute and read, and list on a directory. */
  ghost predicate ReadAt(p: Path, tree: Tree, right: Right, location: Path) {
    && p in tree && tree[p].location <= location
    && if tree[p].isDir then right in {Execute, ReadFile, ReadDir} else right in {Execute, ReadFile}
  }

  /**
   The decision itself: full access beneath writable paths, read access beneath the root under a broad policy and
   beneath the listed paths only under a narrow one, nothing else.
   */
  ghost predicate Permits(decision: AccessDecision, tree: Tree, right: Right, location: Path) {
    || (exists p :: p in decision.writable && FullAt(p, tree, right, location))
    || match decision.read
       case Broad => ReadAt([], tree, right, location)
       case Narrow(paths) => exists p :: p in paths && ReadAt(p, tree, right, location)
  }

  lemma {:induction false} FullMask(p: Path, tree: Tree, right: Right, location: Path)
    ensures AsksAt(Rule(p, FromAll(REQUIRED_ABI)), tree, REQUIRED_ABI, right, location)
       <==> FullAt(p, tree, right, location)
  {
    HandledRightsExactly(REQUIRED_ABI, right);
  }

  lemma {:induction false} ReadMask(p: Path, tree: Tree, right: Right, location: Path)
    ensures AsksAt(Rule(p, FROM_READ), tree, REQUIRED_ABI, right, location) <==> ReadAt(p, tree, right, location)
  {
    HandledRightsExactly(REQUIRED_ABI, right);
  }

  lemma {:induction false} WritableConfers(paths: seq<Path>, tree: Tree, right: Right, location: Path)
    ensures Confers(paths, FromAll(REQUIRED_ABI), tree, right, location)
       <==> exists p :: p in paths && FullAt(p, tree, right, location)
  {
    forall p | p in paths
      ensures AsksAt(Rule(p, FromAll(REQUIRED_ABI)), tree, REQUIRED_ABI, right, location)
         <==> FullAt(p, tree, right, location)
    {
      FullMask(p, tree, right, location);
    }
  }

  lemma {:induction false} ReadConfers(paths: seq<Path>, tree: Tree, right: Right, location: Path)
    ensures Confers(paths, FROM_READ, tree, right, location)
       <==> exists p :: p in paths && ReadAt(p, tree, right, location)
  {
    forall p | p in paths
      ensures AsksAt(Rule(p, FROM_READ), tree, REQUIRED_ABI, right, location) <==> ReadAt(p, tree, right, location)
    {
      ReadMask(p, tree, right, location);
    }
  }

  /** What the two rule groups confer is what the decision permits. */
  lemma {:induction false} PermitsByRules(decision: AccessDecision, tree: Tree, right: Right, location: Path)
    ensures Permits(decision, tree, right, location) <==>
              || Confers(decision.writable, FromAll(REQUIRED_ABI), tree, right, location)
              || Confers(ReadPaths(decision), FROM_READ, tree, right, location)
  {
    WritableConfers(decision.writable, tree, right, location);
    ReadConfers(ReadPaths(decision), tree, right, location);
    if decision.read.Broad? {
      assert [] in ReadPaths(decision);
    }
  }

  lemma {:induction false} AskedOfConcat(a: seq<Rule>, b: seq<Rule>, tree: Tree, abi: Abi, right: Right, location: Path)
    ensures Asked(a + b, tree, abi, right, location)
       <==> Asked(a, tree, abi, right, location) || Asked(b, tree, abi, right, location)
  {
    assert forall r :: r in a + b <==> r in a || r in b;
  }

  lemma {:induction false} AskedOfRulesFor(paths: seq<Path>, mask: set<Right>, tree: Tree, right: Right, location: Path)
    ensures Asked(RulesFor(paths, mask), tree, REQUIRED_ABI, right, location)
       <==> Confers(paths, mask, tree, right, location)
  {
    var rules := RulesFor(paths, mask);
    if Asked(rules, tree, REQUIRED_ABI, right, location) {
      var r :| r in rules && AsksAt(r, tree, REQUIRED_ABI, right, location);
      var i :| 0 <= i < |rules| && rules[i] == r;
      assert r == Rule(paths[i], mask) && paths[i] in paths;
    }
    if Confers(paths, mask, tree, right, location) {
      var p :| p in paths && AsksAt(Rule(p, mask), tree, REQUIRED_ABI, right, location);
      var i :| 0 <= i < |paths| && paths[i] == p;
      assert rules[i] in rules && AsksAt(rules[i], tree, REQUIRED_ABI, right, location);
    }
  }

  /** In the preset's order the first mask for a path is never the narrower one. */
  lemma {:induction false} PresetLosesNothing(decision: AccessDecision, tree: Tree, i: nat)
    requires i < |PresetRules(decision)|
    ensures RuleCovered(PresetRules(decision), tree, REQUIRED_ABI, i)
  {
    var rules := PresetRules(decision);
    var path := rules[i].path;
    if path in tree {
      assert MentionsPath(rules, path);
      var k := FirstMention(rules, path);
      assert k <= i && rules[i].desired <= rules[k].desired;
      assert Leads(rules, tree, k);
      forall right | right in Narrowed(rules, tree, REQUIRED_ABI, i).mask
        ensures LeaderCarries(rules, tree, REQUIRED_ABI, right, tree[path].location)
      {
        assert AsksAt(rules[k], tree, REQUIRED_ABI, right, tree[path].location);
      }
    }
  }

  /** The translation preserves meaning: at every location the ruleset grants exactly what the decision permits. */
  lemma {:induction false} PresetGrantsDecision(decision: AccessDecision, tree: Tree, right: Right, location: Path)
    ensures Granted(Kept(PresetRules(decision), tree, REQUIRED_ABI), right, location)
       <==> Permits(decision, tree, right, location)
  {
    forall i | 0 <= i < |PresetRules(decision)|
      ensures RuleCovered(PresetRules(decision), tree, REQUIRED_ABI, i)
    {
      PresetLosesNothing(decision, tree, i);
    }
    CoveredIsLossless(PresetRules(decision), tree, REQUIRED_ABI, right, location);
    AskedOfConcat(RulesFor(decision.writable, FromAll(REQUIRED_ABI)), RulesFor(ReadPaths(decision), FROM_READ),
                  tree, REQUIRED_ABI, right, location);
    AskedOfRulesFor(decision.writable, FromAll(REQUIRED_ABI), tree, right, location);
    AskedOfRulesFor(ReadPaths(decision), FROM_READ, tree, right, location);
    PermitsByRules(decision, tree, right, location);
  }

  /** No rule of the preset is ever rejected by `add_rule`. */
  lemma {:induction false} PresetAccepted(decision: AccessDecision, tree: Tree, a: Added)
    requires a in Kept(PresetRules(decision), tree, REQUIRED_ABI)
    ensures AddRuleOk(a, REQUIRED_ABI)
  {
    var i := KeptComesFrom(PresetRules(decision), tree, REQUIRED_ABI, a);
    assert PresetRules(decision)[i].desired == FromAll(REQUIRED_ABI) || PresetRules(decision)[i].desired == FROM_READ;
    assert ReadFile in a.mask;
  }

  /** Every existing path of the decision can be opened: the writable ones, and the root or the listed read paths. */
  ghost predicate Openable(decision: AccessDecision, tree: Tree, env: Env) {
    && (forall p :: p in decision.writable && p in tree ==> p in env.openable)
    && match decision.read
       case Broad => [] in tree ==> [] in env.openable
       case Narrow(paths) => forall p :: p in paths && p in tree ==> p in env.openable
  }

  lemma {:induction false} OpenableByPaths(decision: AccessDecision, tree: Tree, env: Env)
    ensures Openable(decision, tree, env) <==>
              forall p :: p in decision.writable + ReadPaths(decision) && p in tree ==> p in env.openable
  {
    var paths := decision.writable + ReadPaths(decision);
    assert forall p :: p in paths <==> p in decision.writable || p in ReadPaths(decision);
    if decision.read.Broad? {
      assert [] in ReadPaths(decision) && forall p :: p in ReadPaths(decision) <==> p == [];
    }
  }

  /** The preset builds exactly when all its existing paths open. */
  lemma {:induction false} PresetBuildsIffOpenable(decision: AccessDecision, tree: Tree, env: Env)
    ensures AllAccepted(Kept(PresetRules(decision), tree, REQUIRED_ABI), env, REQUIRED_ABI)
       <==> Openable(decision, tree, env)
  {
    var rules, added := PresetRules(decision), Kept(PresetRules(decision), tree, REQUIRED_ABI);
    var paths := decision.writable + ReadPaths(decision);
    assert |rules| == |paths| && forall i :: 0 <= i < |rules| ==> rules[i].path == paths[i];
    OpenableByPaths(decision, tree, env);
    if Openable(decision, tree, env) {
      forall k | 0 <= k < |added|
        ensures added[k].path in env.openable && AddRuleOk(added[k], REQUIRED_ABI)
      {
        PresetAccepted(decision, tree, added[k]);
        var i := KeptComesFrom(rules, tree, REQUIRED_ABI, added[k]);
        assert paths[i] == added[k].path && paths[i] in paths;
      }
    }
    if AllAccepted(added, env, REQUIRED_ABI) {
      forall p | p in paths && p in tree
        ensures p in env.openable
      {
        var i :| 0 <= i < |paths| && paths[i] == p;
        assert rules[i].path == p;
        var f := FirstMention(rules, p);
        assert Leads(rules, tree, f);
        KeptFirst(rules, tree, REQUIRED_ABI, f);
        var k :| 0 <= k < |added| && added[k] == Narrowed(rules, tree, REQUIRED_ABI, f);
      }
    }
  }

  /** The decision is about this path. */
  ghost predicate Names(decision: AccessDecision, p: Path) {
    || p in decision.writable
    || match decision.read
       case Broad => p == []
       case Narrow(paths) => p in paths
  }

  lemma {:induction false} PresetRuleNames(decision: AccessDecision, i: nat)
    requires i < |PresetRules(decision)|
    ensures Names(decision, PresetRules(decision)[i].path)
  {
    var n := |decision.writable|;
    if i < n {
      assert PresetRules(decision)[i].path == decision.writable[i];
    } else {
      assert PresetRules(decision)[i].path == ReadPaths(decision)[i - n];
    }
  }

  /** The rule list of `prepare_landlock`, built by its two loops. */
  method BuildPresetRules(decision: AccessDecision) returns (rules: seq<Rule>)
    ensures rules == PresetRules(decision)
  {
    rules := [];
    ghost var w := RulesFor(decision.writable, FromAll(REQUIRED_ABI));
    for i := 0 to |decision.writable|
      invariant rules == w[..i]
    {
      rules := rules + [Rule(decision.writable[i], FromAll(REQUIRED_ABI))];
    }
    assert rules == w;
    match decision.read
    case Broad =>
      rules := rules + [Rule(ROOT, FROM_READ)];
      assert RulesFor([ROOT], FROM_READ) == [Rule(ROOT, FROM_READ)];
    case Narrow(paths) =>
      ghost var rd := RulesFor(paths, FROM_READ);
      for i := 0 to |paths|
        invariant rules == w + rd[..i]
      {
        rules := rules + [Rule(paths[i], FROM_READ)];
      }
      assert rd[..|paths|] == rd;
  }

  /**
   `prepare_landlock`: built iff landlock is supported and every existing path of the decision opens, and then the
   ruleset grants exactly what the decision permits; an error names an existing path of the decision that does not
   open.
   */
  method PrepareLandlock(decision: AccessDecision, tree: Tree, env: Env) returns (r: BuildResult)
    ensures r.Built? <==> env.supported && Openable(decision, tree, env)
    ensures r.Built? ==>
              forall right, location :: Granted(r.added, right, location) <==> Permits(decision, tree, right, location)
    ensures r.Unsupported? <==> !env.supported
    ensures r.Built? || r.Unsupported? || r.CannotOpen?
    ensures r.CannotOpen? ==> r.path in tree && r.path !in env.openable && Names(decision, r.path)
  {
    var rules := BuildPresetRules(decision);
    r := BuildRuleset(REQUIRED_ABI, rules, tree, env);
    if r.CannotOpen? {
      ghost var k: nat :| FirstRejected(rules, tree, env, REQUIRED_ABI, k) && rules[k].path == r.path;
      PresetRuleNames(decision, k);
    } else if r.RuleRejected? {
      ghost var k: nat :| FirstRejected(rules, tree, env, REQUIRED_ABI, k) && rules[k].path == r.path;
      KeptFirst(rules, tree, REQUIRED_ABI, k);
      PresetAccepted(decision, tree, Narrowed(rules, tree, REQUIRED_ABI, k));
      assert false;
    }
    PresetBuildsIffOpenable(decision, tree, env);
    forall right, location
      ensures Granted(Kept(rules, tree, REQUIRED_ABI), right, location) <==> Permits(decision, tree, right, location)
    {
      PresetGrantsDecision(decision, tree, right, location);
    }
  }
}
