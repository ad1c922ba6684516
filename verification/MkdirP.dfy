/**
 `raw_mkdir_p` (src/mount/syscalls.rs): create every directory on the way to a path with one `mkdirat` per component,
 through a 4096-byte stack buffer.
 */
module MkdirP {
  import opened MachineInts

  const SLASH: U8 := 0x2f
  const BUF_LEN := 4096
  const EEXIST := 17
  const ENAMETOOLONG := 36

  /** What a C function sees of a byte string: everything before the first NUL. */
  function CStr(s: seq<U8>): seq<U8> {
    if s == [] || s[0] == 0 then [] else [s[0]] + CStr(s[1..])
  }

  /** The terminator after a string ends it, whatever follows. */
  lemma {:induction false} CStrTerminated(s: seq<U8>, t: seq<U8>)
    ensures CStr(s + [0] + t) == CStr(s)
  {
    if s == [] {
    } else {
      assert (s + [0] + t)[1..] == s[1..] + [0] + t;
      CStrTerminated(s[1..], t);
    }
  }

  lemma {:induction false} CStrWithoutNul(s: seq<U8>)
    requires 0 !in s
    ensures CStr(s) == s
  {
    if s == [] {
    } else {
      CStrWithoutNul(s[1..]);
    }
  }

  /** Position `e` ends a component: a non-slash before it, and a slash or the end of the path at it. */
  predicate IsComponentEnd(path: seq<U8>, e: nat) {
    0 < e <= |path| && path[e - 1] != '/' as int && (e == |path| || path[e] == '/' as int)
  }

  /** The component ends up to `limit`, in increasing order. */
  function EndsUpTo(path: seq<U8>, limit: nat): (ends: seq<nat>)
    ensures forall i :: 0 <= i < |ends| ==> ends[i] <= limit
  {
    if limit == 0 then []
    else EndsUpTo(path, limit - 1) + if IsComponentEnd(path, limit) then [limit] else []
  }

  /** `EndsUpTo` lists exactly the component ends, each once, ascending. */
  lemma {:induction false} EndsUpToExact(path: seq<U8>, limit: nat)
    ensures forall i, j :: 0 <= i < j < |EndsUpTo(path, limit)| ==> EndsUpTo(path, limit)[i] < EndsUpTo(path, limit)[j]
    ensures forall e: nat :: e in EndsUpTo(path, limit) <==> IsComponentEnd(path, e) && e <= limit
  {
    if limit == 0 {
    } else {
      EndsUpToExact(path, limit - 1);
    }
  }

  lemma {:induction false} NoEndsBetween(path: seq<U8>, from: nat, to: nat)
    requires from <= to
    requires forall e :: from < e <= to ==> !IsComponentEnd(path, e)
    ensures EndsUpTo(path, to) == EndsUpTo(path, from)
  {
    if from == to {
    } else {
      NoEndsBetween(path, from, to - 1);
    }
  }

  /** The names handed to `mkdirat`, one per listed end. */
  function Names(path: seq<U8>, ends: seq<nat>): seq<seq<U8>>
    requires forall i :: 0 <= i < |ends| ==> ends[i] <= |path|
  {
    if ends == [] then [] else Names(path, ends[..|ends| - 1]) + [CStr(path[..ends[|ends| - 1]])]
  }

  lemma {:induction false} NamesAppend(path: seq<U8>, ends: seq<nat>, e: nat)
    requires e <= |path| && forall i :: 0 <= i < |ends| ==> ends[i] <= |path|
    ensures Names(path, ends + [e]) == Names(path, ends) + [CStr(path[..e])]
    ensures Elements(Names(path, ends + [e])) == Elements(Names(path, ends)) + {CStr(path[..e])}
  {
    assert (ends + [e])[..|ends|] == ends;
    var names, name := Names(path, ends), CStr(path[..e]);
    assert forall n :: n in names + [name] <==> n in names || n == name;
  }

  /** The names of a path without NUL bytes are its component-boundary prefixes. */
  lemma {:induction false} NamesArePrefixes(path: seq<U8>, ends: seq<nat>, i: nat)
    requires 0 !in path && i < |ends| && forall j :: 0 <= j < |ends| ==> ends[j] <= |path|
    ensures |Names(path, ends)| == |ends| && Names(path, ends)[i] == path[..ends[i]]
  {
    var init, last := ends[..|ends| - 1], ends[|ends| - 1];
    CStrWithoutNul(path[..last]);
    if init == [] {
    } else {
      NamesArePrefixes(path, init, if i < |init| then i else 0);
    }
  }

  /** What `mkdirat` has been asked and has answered, and the entries that exist. */
  datatype Snapshot = Snapshot(entries: set<seq<U8>>, calls: seq<seq<U8>>, answer: nat)

  /** The component after those listed ends past the buffer. */
  ghost predicate NextOverLong(path: seq<U8>, ends: seq<nat>) {
    exists e: nat :: e >= 4096 && EndsUpTo(path, e) == ends + [e]
  }

  /**
   What `raw_mkdir_p` comes to when it got as far as position `limit`: names went out for the component ends up to
   there, in order; on 0 for all of them, each exists, and nothing else was added. A failure is that of the last call,
   or the next component is over-long.
   */
  ghost predicate MadePath(path: seq<U8>, ret: nat, limit: nat, before: Snapshot, after: Snapshot) {
    && limit <= |path| && (ret == 0 ==> limit == |path|)
    && var ends := EndsUpTo(path, limit);
       && (forall i :: 0 <= i < |ends| ==> ends[i] < 4096)
       && after.calls == before.calls + Names(path, ends)
       && (ret == 0 ==> after.entries == before.entries + Elements(Names(path, ends)))
       && before.entries <= after.entries <= before.entries + Elements(Names(path, ends))
       && (ret == 0 ==> ends == [] || after.answer == 0 || after.answer == 17) // EEXIST
       && (ret != 0 ==>
             || (ends != [] && ret == after.answer && ret != 17)
             || (ret == 36 && NextOverLong(path, ends))) // ENAMETOOLONG
  }

  /** Every component up to `limit` has been made or was there, and nothing else was added. */
  ghost predicate Progress(path: seq<U8>, limit: nat, before: Snapshot, now: Snapshot) {
    && limit <= |path|
    && var ends := EndsUpTo(path, limit);
       && (forall i :: 0 <= i < |ends| ==> ends[i] < 4096)
       && now.calls == before.calls + Names(path, ends)
       && now.entries == before.entries + Elements(Names(path, ends))
       && (ends == [] || now.answer == 0 || now.answer == 17)
  }

  lemma {:induction false} ProgressEnds(path: seq<U8>, limit: nat, before: Snapshot, now: Snapshot)
    requires Progress(path, limit, before, now)
    ensures limit == |path| ==> MadePath(path, 0, limit, before, now)
    ensures NextOverLong(path, EndsUpTo(path, limit)) ==> MadePath(path, 36, limit, before, now)
  {
  }

  /** The namespace's directory entries and the log of `mkdirat` calls. */
  class FileSystem {
    var entries: set<seq<U8>>
    var calls: seq<seq<U8>>
    var answer: nat // errno of the last call, 0 for success

    function Now(): Snapshot
      reads this
    {
      Snapshot(entries, calls, answer)
    }

    /** `mkdirat`: creates a missing entry, or fails and changes nothing. */
    method Mkdirat(name: seq<U8>) returns (errno: nat)
      modifies this
      ensures calls == old(calls) + [name]
      ensures errno == 0 ==> entries == old(entries) + {name}
      ensures errno != 0 ==> entries == old(entries)
      ensures errno == EEXIST ==> name in entries
      ensures answer == errno
    {
      calls := calls + [name];
      var failure: int := *;
      errno := if failure > 0 && failure != EEXIST then failure else if name in entries then EEXIST else 0;
      answer := errno;
      if errno == 0 {
        entries := entries + {name};
      }
    }

    /** `raw_mkdir_p`; no write ever goes past the buffer, so a path with a component that ends past it is refused. */
    method RawMkdirP(path: seq<U8>) returns (ret: nat, ghost limit: nat)
      modifies this
      ensures MadePath(path, ret, limit, old(Now()), Now())
    {
      var end: nat := 0;
      ret, limit := 0, 0;
      while end < |path|
        invariant end <= |path| && limit == end && Progress(path, end, old(Now()), Now())
      {
        var found;
        found, end := SkipToComponentEnd(path, end);
        if !found {
          limit := end;
          break;
        }
        if end >= BUF_LEN {
          assert NextOverLong(path, EndsUpTo(path, limit));
          ProgressEnds(path, limit, old(Now()), Now());
          ret := ENAMETOOLONG;
          return;
        }
        var errno := MakeComponent(path, limit, end, old(Now()));
        limit := end;
        if errno != 0 && errno != EEXIST {
          ret := errno;
          return;
        }
      }
      ProgressEnds(path, limit, old(Now()), Now());
    }

    /** One round of the loop: the prefix goes through the buffer to `mkdirat`. */
    method MakeComponent(path: seq<U8>, ghost from: nat, end: nat, ghost before: Snapshot) returns (errno: nat)
      requires end <= |path| && end < BUF_LEN && Progress(path, from, before, Now())
      requires EndsUpTo(path, end) == EndsUpTo(path, from) + [end]
      modifies this
      ensures errno == 0 || errno == EEXIST ==> Progress(path, end, before, Now())
      ensures errno != 0 && errno != EEXIST ==> MadePath(path, errno, end, before, Now())
    {
      ghost var ends := EndsUpTo(path, from);
      NamesAppend(path, ends, end);
      var name := CopyToBuffer(path, end);
      errno := Mkdirat(name);
      assert calls == before.calls + Names(path, ends) + [name] == before.calls + Names(path, ends + [end]);
    }
  }

  ghost function Elements(names: seq<seq<U8>>): set<seq<U8>> {
    set name | name in names
  }

  /** The two scanning loops: skip slashes, then run to the end of the next component, if there is one. */
  method SkipToComponentEnd(path: seq<U8>, from: nat) returns (found: bool, end: nat)
    requires from < |path|
    ensures from < end <= |path|
    ensures found ==> IsComponentEnd(path, end) && EndsUpTo(path, end) == EndsUpTo(path, from) + [end]
    ensures !found ==> end == |path| && EndsUpTo(path, end) == EndsUpTo(path, from)
  {
    end := from;
    while end < |path| && path[end] == SLASH
      invariant from <= end <= |path|
      invariant forall k :: from <= k < end ==> path[k] == SLASH
    {
      end := end + 1;
    }
    if end >= |path| {
      NoEndsBetween(path, from, end);
      return false, end;
    }
    ghost var first := end;
    while end < |path| && path[end] != SLASH
      invariant first <= end <= |path|
      invariant forall k :: first <= k < end ==> path[k] != SLASH
    {
      end := end + 1;
    }
    found := true;
    forall e | from < e < end
      ensures !IsComponentEnd(path, e)
    {
      assert e <= first ==> path[e - 1] == SLASH;
      assert e > first ==> path[e] != SLASH;
    }
    NoEndsBetween(path, from, end - 1);
  }

  /** The zeroed stack buffer, filled with `path[..end]` and a terminator, as a C string. */
  method CopyToBuffer(path: seq<U8>, end: nat) returns (name: seq<U8>)
    requires end <= |path| && end < BUF_LEN
    ensures name == CStr(path[..end])
  {
    var buf := new U8[BUF_LEN](_ => 0);
    for i := 0 to end
      invariant forall k :: 0 <= k < i ==> buf[k] == path[k]
    {
      buf[i] := path[i];
    }
    buf[end] := 0;
    assert buf[..] == path[..end] + [0] + buf[end + 1..];
    CStrTerminated(path[..end], buf[end + 1..]);
    name := CStr(buf[..]);
  }
}
