/**
 The descendant walk and recursive kill of src/process/kill.rs. A walk reads the children of each pid at most once,
 so whatever `/proc` answers during the walk is a map from pids to child lists; cycles in it are allowed.
 */
module ProcessTree {
  type Children = map<int, seq<int>>

  /** `read_children`: a pid without an entry has no children. */
  function ReadChildren(tree: Children, pid: int): seq<int> {
    if pid in tree then tree[pid] else []
  }

  /** Consecutive pids are parent and child. */
  ghost predicate IsPath(tree: Children, path: seq<int>) {
    && path != []
    && forall i :: 0 <= i < |path| - 1 ==> path[i] in tree && path[i + 1] in tree[path[i]]
  }

  ghost predicate Reachable(tree: Children, root: int, pid: int) {
    exists path :: IsPath(tree, path) && path[0] == root && path[|path| - 1] == pid
  }

  ghost predicate NoDuplicates(s: seq<int>) {
    forall i, j :: 0 <= i < j < |s| ==> s[i] != s[j]
  }

  lemma {:induction false} RootReachable(tree: Children, root: int)
    ensures Reachable(tree, root, root)
  {
    assert IsPath(tree, [root]) && [root][0] == root && [root][|[root]| - 1] == root;
  }

  lemma {:induction false} ChildReachable(tree: Children, root: int, pid: int, child: int)
    requires Reachable(tree, root, pid) && child in ReadChildren(tree, pid)
    ensures Reachable(tree, root, child)
  {
    var path :| IsPath(tree, path) && path[0] == root && path[|path| - 1] == pid;
    var longer := path + [child];
    assert IsPath(tree, longer) && longer[0] == root && longer[|longer| - 1] == child;
  }

  /** A set with the root that is closed under children holds the end of every path. */
  lemma {:induction false} ClosedSetHoldsPaths(tree: Children, closed: set<int>, path: seq<int>)
    requires IsPath(tree, path) && path[0] in closed
    requires forall p, c :: p in closed && c in ReadChildren(tree, p) ==> c in closed
    ensures path[|path| - 1] in closed
  {
    if |path| == 1 {
    } else {
      var init := path[..|path| - 1];
      assert IsPath(tree, init);
      ClosedSetHoldsPaths(tree, closed, init);
      var parent := path[|path| - 2];
      assert parent in tree && path[|path| - 2 + 1] in tree[parent];
      assert path[|path| - 1] in ReadChildren(tree, parent);
    }
  }

  /** All pids the walk can meet. */
  ghost function Universe(tree: Children, root: int): set<int> {
    {root} + set p, i | p in tree && 0 <= i < |tree[p]| :: tree[p][i]
  }

  ghost predicate ExactlyReachable(tree: Children, root: int, out: seq<int>) {
    NoDuplicates(out) && forall pid :: pid in out <==> Reachable(tree, root, pid)
  }

  /** The state of a walk: everything met is reachable, and children of visited pids are visited or on the stack. */
  ghost predicate WalkInv(tree: Children, root: int, out: seq<int>, stack: seq<int>) {
    && NoDuplicates(out)
    && (forall p :: p in out ==> Reachable(tree, root, p) && p in Universe(tree, root))
    && (forall p :: p in stack ==> Reachable(tree, root, p) && p in Universe(tree, root))
    && (forall p, c :: p in out && c in ReadChildren(tree, p) ==> c in out || c in stack)
    && (if out == [] then stack == [root] else out[0] == root)
  }

  lemma {:induction false} SkipKeepsWalk(tree: Children, root: int, out: seq<int>, stack: seq<int>, pid: int)
    requires WalkInv(tree, root, out, stack + [pid]) && pid in out
    ensures WalkInv(tree, root, out, stack)
  {
    assert forall p :: p in stack ==> p in stack + [pid];
  }

  lemma {:induction false} VisitKeepsWalk(tree: Children, root: int, out: seq<int>, stack: seq<int>, pid: int)
    requires WalkInv(tree, root, out, stack + [pid]) && pid !in out
    ensures WalkInv(tree, root, out + [pid], stack + ReadChildren(tree, pid))
  {
    assert pid in stack + [pid];
    assert forall p :: p in stack ==> p in stack + [pid];
    forall c | c in ReadChildren(tree, pid)
      ensures Reachable(tree, root, c) && c in Universe(tree, root)
    {
      ChildReachable(tree, root, pid, c);
    }
    if out == [] {
      assert (stack + [pid])[|stack|] == pid;
    }
  }

  /** A finished walk has met every reachable pid. */
  lemma {:induction false} FinishedWalk(tree: Children, root: int, out: seq<int>)
    requires WalkInv(tree, root, out, [])
    ensures ExactlyReachable(tree, root, out)
  {
    forall pid | Reachable(tree, root, pid)
      ensures pid in out
    {
      var path :| IsPath(tree, path) && path[0] == root && path[|path| - 1] == pid;
      ClosedSetHoldsPaths(tree, (set p | p in out), path);
    }
  }

  /** How many pids are left to visit. */
  ghost function Unvisited(tree: Children, root: int, seen: set<int>): nat {
    |Universe(tree, root) - seen|
  }

  lemma {:induction false} VisitUsesUp(tree: Children, root: int, out: seq<int>, stack: seq<int>, seen: set<int>,
                                       pid: int)
    requires WalkInv(tree, root, out, stack + [pid]) && pid !in seen
    ensures Unvisited(tree, root, seen + {pid}) < Unvisited(tree, root, seen)
  {
    var universe := Universe(tree, root);
    assert (stack + [pid])[|stack|] == pid;
    assert pid in universe - seen;
    assert universe - (seen + {pid}) == (universe - seen) - {pid};
  }

  /** The inner loop: push the children in order. */
  method PushAll(stack: seq<int>, children: seq<int>) returns (stack': seq<int>)
    ensures stack' == stack + children
  {
    stack' := stack;
    for i := 0 to |children|
      invariant stack' == stack + children[..i]
    {
      stack' := stack' + [children[i]];
    }
  }

  /** `collect_descendants`: ends on every finite relation, with each reachable pid exactly once and nothing else. */
  method CollectDescendants(tree: Children, root: int) returns (out: seq<int>)
    ensures ExactlyReachable(tree, root, out)
    ensures out != [] && out[0] == root
  {
    var seen: set<int> := {};
    var stack := [root];
    out := [];
    RootReachable(tree, root);
    while stack != []
      invariant WalkInv(tree, root, out, stack)
      invariant forall p :: p in seen <==> p in out
      decreases Unvisited(tree, root, seen), |stack|
    {
      var pid, rest := stack[|stack| - 1], stack[..|stack| - 1];
      assert stack == rest + [pid];
      if pid in seen {
        SkipKeepsWalk(tree, root, out, rest, pid);
        stack := rest;
        continue;
      }
      VisitKeepsWalk(tree, root, out, rest, pid);
      VisitUsesUp(tree, root, out, rest, seen, pid);
      seen := seen + {pid};
      out := out + [pid];
      stack := PushAll(rest, ReadChildren(tree, pid));
    }
    FinishedWalk(tree, root, out);
  }

  const ROUNDS := 5

  /**
   `kill_tree`: since the root is always collected, the early break is never taken; each of the five rounds signals
   exactly the pids reachable in that round's view, each once.
   */
  method KillTree(views: seq<Children>, root: int) returns (signalled: seq<seq<int>>)
    requires |views| == 5
    ensures |signalled| == 5
    ensures forall r :: 0 <= r < 5 ==> ExactlyReachable(views[r], root, signalled[r])
  {
    signalled := [];
    for r := 0 to ROUNDS
      invariant |signalled| == r
      invariant forall q :: 0 <= q < r ==> ExactlyReachable(views[q], root, signalled[q])
    {
      var live := CollectDescendants(views[r], root);
      if live == [] {
        break;
      }
      var sent: seq<int> := [];
      for i := 0 to |live|
        invariant sent == live[..i]
      {
        sent := sent + [live[i]];
      }
      assert sent == live;
      signalled := signalled + [sent];
    }
  }
}
