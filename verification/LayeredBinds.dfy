/**
 Layered directory self-binds (src/mount/child.rs): `install_bind` on a mount table, and the order rule for layering
 read-only and writable binds. The table maps the root of each visible mount to its read-only flag; a path belongs to
 the mount with the deepest root at or above it. A recursive self-bind copies the covering mount with its flag and
 carries nested mounts along unchanged; a non-recursive remount changes one mount's flag.
 */
module LayeredBinds {
  import opened Wrappers
  import opened MountOps

  type Path = seq<string>

  /** A non-recursive bind with this permission is followed by a remount. */
  predicate Remounts(p: Permission) {
    RemountFlags(p, false).Some?
  }

  /** The permission asks for read-only: the remount carries `MS_RDONLY`. */
  predicate WantsReadOnly(p: Permission) {
    Remounts(p) && MS_RDONLY in RemountFlags(p, false).value
  }

  /** A prepared non-recursive bind. */
  datatype Bind = Bind(target: Path, permission: Permission)

  type Table = map<Path, bool>

  /** The root of the mount that a path belongs to. */
  function Cover(table: Table, p: Path): (root: Path)
    requires [] in table
    ensures root in table
  {
    if p in table then p
    else if p == [] then []
    else Cover(table, p[..|p| - 1])
  }

  /** The covering mount's root is at or above the path, and no deeper mount is. */
  lemma {:induction false} CoverIsMaximal(table: Table, p: Path, q: Path)
    requires [] in table && q in table && q <= p
    ensures Cover(table, p) <= p && |q| <= |Cover(table, p)|
  {
    if p in table {
    } else {
      assert |q| == |p| ==> q == p;
      CoverIsMaximal(table, p[..|p| - 1], q);
    }
  }

  /** The read-only status of a path. */
  predicate ReadOnlyAt(table: Table, p: Path)
    requires [] in table
  {
    table[Cover(table, p)]
  }

  /** `install_bind`: self-bind, then the remount if the permission asks for one. */
  function Install(table: Table, b: Bind): (r: Table)
    requires [] in table
    ensures [] in r
  {
    var bound := table[b.target := ReadOnlyAt(table, b.target)];
    if Remounts(b.permission) then bound[b.target := WantsReadOnly(b.permission)] else bound
  }

  /** A mount rooted at `target` would cover `p`: it is at or above, and no mount of the table lies deeper above `p`. */
  ghost predicate Takes(table: Table, target: Path, p: Path) {
    target <= p && forall q :: q in table && q <= p ==> |q| <= |target|
  }

  /** A new mount covers the paths it takes; every other path keeps its mount. */
  lemma {:induction false} CoverAfterBind(table: Table, target: Path, flag: bool, p: Path)
    requires [] in table
    ensures Cover(table[target := flag], p) == if Takes(table, target, p) then target else Cover(table, p)
  {
    if p == target {
    } else if p in table {
      assert target <= p ==> |target| < |p|;
    } else {
      var above := p[..|p| - 1];
      CoverAfterBind(table, target, flag, above);
      assert target <= p <==> target <= above by {
        assert |target| == |p| && target <= p ==> target == p;
      }
      forall q | q in table
        ensures q <= p <==> q <= above
      {
        assert |q| == |p| && q <= p ==> q == p;
      }
      assert Takes(table, target, p) <==> Takes(table, target, above);
    }
  }

  /** The flag that a bind leaves where it applies: the requested one, or without a remount the one it covers up. */
  predicate LeavesReadOnly(table: Table, b: Bind)
    requires [] in table
  {
    if Remounts(b.permission) then WantsReadOnly(b.permission) else ReadOnlyAt(table, b.target)
  }

  /** Installing a bind sets the status of the paths that its target takes, and of no others. */
  lemma {:induction false} InstallPathwise(table: Table, b: Bind, p: Path)
    requires [] in table
    ensures ReadOnlyAt(Install(table, b), p)
         == if Takes(table, b.target, p) then LeavesReadOnly(table, b) else ReadOnlyAt(table, p)
  {
    CoverAfterBind(table, b.target, LeavesReadOnly(table, b), p);
    assert Install(table, b) == table[b.target := LeavesReadOnly(table, b)];
    if Cover(table, p) == b.target {
      CoverIsMaximal(table, p, []);
      forall q | q in table && q <= p
        ensures |q| <= |b.target|
      {
        CoverIsMaximal(table, p, q);
      }
    }
  }

  /** One writable mount, then each bind in turn. */
  function InstallAll(binds: seq<Bind>): (r: Table)
    ensures [] in r
  {
    if binds == [] then map[[] := false]
    else Install(InstallAll(binds[..|binds| - 1]), binds[|binds| - 1])
  }

  /** The mount table updated in place by the child. */
  class MountTable {
    var mounts: Table

    constructor ()
      ensures mounts == InstallAll([])
    {
      mounts := map[[] := false];
    }

    /**
     `install_bind`: the paths at or below the target with no deeper mount above them get the bind's flag, every other
     path keeps its status, and the mounts nested beneath the target stay.
     */
    method InstallBind(b: Bind)
      requires [] in mounts
      modifies this
      ensures mounts == Install(old(mounts), b) && mounts.Keys == old(mounts.Keys) + {b.target}
      ensures forall p: Path :: ReadOnlyAt(mounts, p)
                == if Takes(old(mounts), b.target, p) then LeavesReadOnly(old(mounts), b)
                   else ReadOnlyAt(old(mounts), p)
    {
      ghost var before := mounts;
      mounts := mounts[b.target := ReadOnlyAt(mounts, b.target)];
      if Remounts(b.permission) {
        mounts := mounts[b.target := WantsReadOnly(b.permission)];
      }
      forall p: Path
        ensures ReadOnlyAt(mounts, p)
             == if Takes(before, b.target, p) then LeavesReadOnly(before, b) else ReadOnlyAt(before, p)
      {
        InstallPathwise(before, b, p);
      }
    }

    method InstallBinds(binds: seq<Bind>)
      requires mounts == InstallAll([])
      modifies this
      ensures mounts == InstallAll(binds)
    {
      for i := 0 to |binds|
        invariant mounts == InstallAll(binds[..i])
      {
        InstallBind(binds[i]);
        assert binds[..i + 1][..i] == binds[..i];
      }
      assert binds[..|binds|] == binds;
    }
  }

  // ----- the intended meaning -----

  ghost predicate DistinctTargets(binds: seq<Bind>) {
    forall i, j :: 0 <= i < j < |binds| ==> binds[i].target != binds[j].target
  }

  /** `j` is the bind with the deepest target at or above `p`. */
  ghost predicate Deepest(binds: seq<Bind>, p: Path, j: nat) {
    && j < |binds| && binds[j].target <= p
    && forall i :: 0 <= i < |binds| && binds[i].target <= p ==> |binds[i].target| <= |binds[j].target|
  }

  /** What the caller asked for: a path is read-only iff the deepest bind at or above it wants that. */
  ghost predicate Wanted(binds: seq<Bind>, p: Path) {
    exists j: nat :: Deepest(binds, p, j) && WantsReadOnly(binds[j].permission)
  }

  /** The installed table means what was asked for, at every path. */
  ghost predicate Faithful(binds: seq<Bind>) {
    forall p: Path :: ReadOnlyAt(InstallAll(binds), p) == Wanted(binds, p)
  }

  /** Children before ancestors: no bind is installed strictly beneath an earlier one. */
  ghost predicate ChildrenFirst(binds: seq<Bind>) {
    forall i, j :: 0 <= i < j < |binds| ==> !(binds[i].target < binds[j].target)
  }

  /** Every bind without a remount goes to a place that the binds before it leave writable. */
  ghost predicate WritableWhenInstalled(binds: seq<Bind>) {
    forall j :: 0 <= j < |binds| && !Remounts(binds[j].permission) ==> !Wanted(binds[..j], binds[j].target)
  }

  // ----- what the table holds -----

  /** The flag that bind `j` leaves on its own mount. */
  ghost function FlagOf(binds: seq<Bind>, j: nat): bool
    requires j < |binds|
  {
    if Remounts(binds[j].permission) then WantsReadOnly(binds[j].permission)
    else ReadOnlyAt(InstallAll(binds[..j]), binds[j].target)
  }

  lemma {:induction false} TableKey(binds: seq<Bind>, p: Path)
    ensures p in InstallAll(binds) <==> p == [] || exists j :: 0 <= j < |binds| && binds[j].target == p
  {
    if binds == [] {
    } else {
      var init, last := binds[..|binds| - 1], binds[|binds| - 1];
      TableKey(init, p);
      if p in InstallAll(init) && p != [] {
        var j :| 0 <= j < |init| && init[j].target == p;
        assert binds[j].target == p;
      }
      if j :| 0 <= j < |binds| && binds[j].target == p {
        assert j < |init| ==> init[j].target == p;
      }
    }
  }

  lemma {:induction false} TableFlag(binds: seq<Bind>, j: nat)
    requires DistinctTargets(binds) && j < |binds|
    ensures binds[j].target in InstallAll(binds) && InstallAll(binds)[binds[j].target] == FlagOf(binds, j)
  {
    var init := binds[..|binds| - 1];
    if j == |init| {
    } else {
      TableFlag(init, j);
      assert init[j] == binds[j] && init[..j] == binds[..j];
      assert binds[j].target != binds[|binds| - 1].target;
    }
  }

  lemma {:induction false} TableRoot(binds: seq<Bind>)
    requires forall j :: 0 <= j < |binds| ==> binds[j].target != []
    ensures !InstallAll(binds)[[]]
  {
    if binds == [] {
    } else {
      TableRoot(binds[..|binds| - 1]);
      assert binds[|binds| - 1].target != [];
    }
  }

  /** The mount covering a path is the one of the deepest bind at or above it, if there is any. */
  lemma {:induction false} CoverIsDeepest(binds: seq<Bind>, p: Path)
    requires DistinctTargets(binds)
    ensures forall j :: 0 <= j < |binds| && binds[j].target == Cover(InstallAll(binds), p) ==>
              Deepest(binds, p, j) && (Wanted(binds, p) <==> WantsReadOnly(binds[j].permission))
    ensures (forall j :: 0 <= j < |binds| ==> binds[j].target != Cover(InstallAll(binds), p)) ==>
              Cover(InstallAll(binds), p) == [] && !Wanted(binds, p)
  {
    var table := InstallAll(binds);
    var root := Cover(table, p);
    TableKey(binds, root);
    CoverIsMaximal(table, p, []);
    forall i | 0 <= i < |binds| && binds[i].target <= p
      ensures |binds[i].target| <= |root|
    {
      TableKey(binds, binds[i].target);
      CoverIsMaximal(table, p, binds[i].target);
    }
    forall i, j | 0 <= i < |binds| && 0 <= j < |binds| && Deepest(binds, p, i) && binds[j].target == root
      ensures i == j
    {
      assert binds[i].target == p[..|root|] == binds[j].target;
    }
    if forall j :: 0 <= j < |binds| ==> binds[j].target != root {
      assert root == [];
      forall i | 0 <= i < |binds|
        ensures !(binds[i].target <= p)
      {
        TableKey(binds, binds[i].target);
      }
    }
  }

  /** The table is faithful exactly when every bind left the flag it was asked for. */
  lemma {:induction false} FaithfulByBind(binds: seq<Bind>)
    requires DistinctTargets(binds)
    ensures Faithful(binds) <==> forall j :: 0 <= j < |binds| ==> FlagOf(binds, j) == WantsReadOnly(binds[j].permission)
  {
    var table := InstallAll(binds);
    if Faithful(binds) {
      forall j | 0 <= j < |binds|
        ensures FlagOf(binds, j) == WantsReadOnly(binds[j].permission)
      {
        var t := binds[j].target;
        CoverIsDeepest(binds, t);
        TableFlag(binds, j);
        assert Cover(table, t) == t && ReadOnlyAt(table, t) == Wanted(binds, t);
      }
    }
    if forall j :: 0 <= j < |binds| ==> FlagOf(binds, j) == WantsReadOnly(binds[j].permission) {
      forall p: Path
        ensures ReadOnlyAt(table, p) == Wanted(binds, p)
      {
        CoverIsDeepest(binds, p);
        var root := Cover(table, p);
        if j :| 0 <= j < |binds| && binds[j].target == root {
          TableFlag(binds, j);
        } else {
          TableRoot(binds);
        }
      }
    }
  }

  lemma {:induction false} PrefixFlags(binds: seq<Bind>, k: nat, j: nat)
    requires j < k <= |binds|
    ensures FlagOf(binds[..k], j) == FlagOf(binds, j)
  {
    assert binds[..k][..j] == binds[..j];
  }

  /** A faithful list is faithful at every stage of its installation. */
  lemma {:induction false} FaithfulPrefix(binds: seq<Bind>, k: nat)
    requires DistinctTargets(binds) && Faithful(binds) && k <= |binds|
    ensures Faithful(binds[..k])
  {
    FaithfulByBind(binds);
    FaithfulByBind(binds[..k]);
    forall j | 0 <= j < k
      ensures FlagOf(binds[..k], j) == WantsReadOnly(binds[..k][j].permission)
    {
      PrefixFlags(binds, k, j);
    }
  }

  /**
   The exact order rule: distinct binds layer as asked, at every path, if and only if every bind without a remount is
   installed where the binds before it leave the path writable.
   */
  lemma {:induction false} LayeringExactly(binds: seq<Bind>)
    requires DistinctTargets(binds)
    ensures Faithful(binds) <==> WritableWhenInstalled(binds)
    decreases |binds|
  {
    FaithfulByBind(binds);
    if Faithful(binds) {
      forall j | 0 <= j < |binds| && !Remounts(binds[j].permission)
        ensures !Wanted(binds[..j], binds[j].target)
      {
        FaithfulPrefix(binds, j);
        assert FlagOf(binds, j) == WantsReadOnly(binds[j].permission) == false;
      }
    }
    if WritableWhenInstalled(binds) {
      forall j | 0 <= j < |binds|
        ensures FlagOf(binds, j) == WantsReadOnly(binds[j].permission)
      {
        if !Remounts(binds[j].permission) {
          var before := binds[..j];
          assert forall i :: 0 <= i < j ==> before[..i] == binds[..i];
          LayeringExactly(before);
          assert ReadOnlyAt(InstallAll(before), binds[j].target) == Wanted(before, binds[j].target);
        }
      }
    }
  }

  /** The documented rule is sufficient: with children before ancestors, every path gets its deepest bind's status. */
  lemma {:induction false} ChildrenFirstIsFaithful(binds: seq<Bind>)
    requires DistinctTargets(binds) && ChildrenFirst(binds)
    ensures Faithful(binds)
  {
    forall j | 0 <= j < |binds|
      ensures !Wanted(binds[..j], binds[j].target)
    {
      forall i | 0 <= i < j
        ensures !(binds[..j][i].target <= binds[j].target)
      {
        assert binds[i].target != binds[j].target && !(binds[i].target < binds[j].target);
      }
    }
    LayeringExactly(binds);
  }

  /** The other order loses writability: a writable child bound after its read-only ancestor stays read-only. */
  lemma {:induction false} AncestorFirstLosesWritability()
    ensures var binds := [Bind(["a"], ReadOnly), Bind(["a", "b"], ReadWrite)];
            DistinctTargets(binds) && !Faithful(binds) && ReadOnlyAt(InstallAll(binds), ["a", "b"])
  {
    var a, ab := ["a"], ["a", "b"];
    var binds := [Bind(a, ReadOnly), Bind(ab, ReadWrite)];
    var one := binds[..1];
    assert |a| != |ab| && a <= ab;
    assert one == [Bind(a, ReadOnly)];
    assert Deepest(one, ab, 0);
    assert Wanted(one, ab);
    LayeringExactly(binds);
    LayeringExactly(one);
    assert ReadOnlyAt(InstallAll(one), ab);
    TableFlag(binds, 1);
  }
}
