/** What the directory walkers DU, Find and Tree share: the DOS calls they make, their static
    per-depth buffers, and the joining of path names. */
module Volumes {
  import opened Bytes
  import opened Streams

  const MAX_DEPTH := 16
  const MAX_ENTRIES := 1024
  const PATH_LEN := 256
  const ERROR_NO_MORE_ENTRIES := 232

  /** The fields of a FileInfoBlock that describe an object; the type is negative for files. */
  datatype Info = Info(entryType: int, size: LONG)

  predicate IsFile(info: Info) {
    info.entryType < 0
  }

  /** The answer of one ExNext. */
  datatype Listing = Next(name: CString, info: Info) | Stop(code: int)

  /** How DOS answers, for every path and every position of a listing.  Nothing is assumed about the
      answers: a listing may never end, and directories may contain one another. */
  datatype Volume = Volume(locks: CString -> bool,
                           examine: CString -> Option<Info>,
                           list: (CString, nat) -> Listing)

  // -------------------------------------------------------------- C strings

  /** The C string in a character buffer: everything before the first NUL. */
  function Text(s: seq<byte>): CString {
    if s == [] || s[0] == '\0' then "" else [s[0]] + Text(s[1..])
  }

  /** A buffer holds a C string. */
  ghost predicate Holds(a: array<byte>, p: CString)
    reads a
  {
    |p| < a.Length && a[..|p|] == p && a[|p|] == '\0'
  }

  lemma {:induction false} TextIs(s: seq<byte>, p: CString)
    requires |p| < |s| && s[..|p|] == p && s[|p|] == '\0'
    ensures Text(s) == p
    decreases |p|
  {
    if p != "" {
      assert s[0] == p[0] && p[0] in p;
      assert s[1..][..|p| - 1] == p[1..];
      forall c | c in p[1..] ensures c in p {}
      TextIs(s[1..], p[1..]);
      assert p == [p[0]] + p[1..];
    }
  }

  /** The path argument of a command: an empty string, the current directory, when it is missing. */
  function PathArgument(argv: seq<CString>, k: nat): CString {
    if k < |argv| then argv[k] else []
  }

  /** A C string in memory. */
  method NewPath(p: CString) returns (path: array<byte>)
    ensures fresh(path) && Holds(path, p)
  {
    path := new byte[|p| + 1](i => if 0 <= i < |p| then p[i] else '\0');
    assert path[..|p|] == p;
  }

  // ------------------------------------------------------------ path joining

  predicate EndsInSeparator(p: string) {
    p != "" && (p[|p| - 1] == ':' || p[|p| - 1] == '/')
  }

  /** The path of an entry: a slash goes between unless the base is empty or ends in ':' or '/'. */
  function Join(base: CString, name: CString): CString {
    if base == "" || EndsInSeparator(base) then base + name else base + "/" + name
  }

  /** A path fits into a path buffer with its terminator. */
  predicate Fits(p: string) {
    |p| <= PATH_LEN - 1
  }

  lemma JoinIs(p: CString, name: CString)
    ensures Join(p, name) == if p == [] || p[|p| - 1] == ':' || p[|p| - 1] == '/' then p + name else p + ['/'] + name
  {
  }

  /** append_name of DU and Find. */
  method AppendName(dst: array<byte>, base: array<byte>, name: CString, ghost p: CString) returns (ok: bool)
    requires dst.Length == PATH_LEN && dst != base && Holds(base, p)
    modifies dst
    ensures ok <==> Fits(Join(p, name))
    ensures ok ==> Holds(dst, Join(p, name))
    ensures var joined: seq<byte> :=
        if p == [] || p[|p| - 1] == ':' || p[|p| - 1] == '/' then p + name else p + ['/'] + name;
      (ok <==> |joined| <= 255) && (ok ==> |joined| < dst.Length && dst[..|joined| + 1] == joined + ['\0'])
  {
    JoinIs(p, name);
    hide Join;
    var i := CopyBase(dst, base, p);
    if base[i] != '\0' { return false; }
    ok := AppendTail(dst, i, name, p);
  }

  /** What append_name of Tree joins: it does not notice that a base is too long, and cuts it off. */
  function JoinCut(base: CString, name: CString): CString {
    Join(base[..Min(|base|, PATH_LEN - 1)], name)
  }

  lemma CutBase(p: CString, name: CString)
    ensures JoinCut(p, name) == Join(p[..Min(|p|, PATH_LEN - 1)], name)
  {
  }

  /** append_name of Tree. */
  method AppendNameUnchecked(dst: array<byte>, base: array<byte>, name: CString, ghost p: CString) returns (ok: bool)
    requires dst.Length == PATH_LEN && dst != base && Holds(base, p)
    modifies dst
    ensures ok <==> Fits(JoinCut(p, name))
    ensures ok ==> Holds(dst, JoinCut(p, name))
    ensures name != "" ==> (ok <==> Fits(Join(p, name))) && (ok ==> Holds(dst, Join(p, name)))
  {
    hide Join, JoinCut, Fits;
    VariantsAgree(p, name);
    CutBase(p, name);
    var i := CopyBase(dst, base, p);
    ok := AppendTail(dst, i, name, p[..i]);
  }

  /** The two variants of append_name agree on every name that is not empty; for the empty name they
      differ exactly on bases that are too long and have a separator where they are cut off. */
  lemma VariantsAgree(base: CString, name: CString)
    ensures name != "" ==> (Fits(JoinCut(base, name)) <==> Fits(Join(base, name)))
    ensures Fits(Join(base, name)) ==> JoinCut(base, name) == Join(base, name)
    ensures Fits(JoinCut(base, name)) && !Fits(Join(base, name))
       <==> name == "" && !Fits(base) && EndsInSeparator(base[..PATH_LEN - 1])
  {
    if Fits(base) { assert base[..|base|] == base; }
  }

  /** The first loop: copies the base as far as it fits. */
  method CopyBase(dst: array<byte>, base: array<byte>, ghost p: CString) returns (i: nat)
    requires dst.Length == PATH_LEN && dst != base && Holds(base, p)
    modifies dst
    ensures i == Min(|p|, PATH_LEN - 1) && dst[..i] == p[..i]
    ensures base[i] == '\0' <==> Fits(p)
  {
    i := 0;
    forall k | 0 <= k < |p| ensures base[k] == p[k] != '\0' { assert base[..|p|][k] == p[k] && p[k] in p; }
    while base[i] != '\0' && i < PATH_LEN - 1
      invariant 0 <= i <= |p| && i <= PATH_LEN - 1
      invariant dst[..i] == p[..i]
      invariant Holds(base, p)
      decreases PATH_LEN - i
    {
      dst[i] := base[i];
      assert base[i] == base[..|p|][i] == p[i];
      assert p[..i + 1] == p[..i] + [p[i]];
      i := i + 1;
    }
  }

  method PutAt(dst: array<byte>, i: nat, c: byte)
    requires i < dst.Length
    modifies dst
    ensures dst[..i + 1] == old(dst[..i]) + [c] && dst[i] == c
    ensures dst[..i] == old(dst[..i])
  {
    dst[i] := c;
  }

  /** What stands before the name in a joined path. */
  lemma Head(p: CString, name: CString)
    ensures Join(p, name) == Join(p, []) + name
    ensures Join(p, []) == if p != [] && p[|p| - 1] != ':' && p[|p| - 1] != '/' then p + ['/'] else p
  {
  }

  /** The rest: separator, name and terminator. */
  method AppendTail(dst: array<byte>, start: nat, name: CString, ghost p: CString) returns (ok: bool)
    requires dst.Length == PATH_LEN && start == |p| <= PATH_LEN - 1 && dst[..start] == p
    modifies dst
    ensures ok <==> Fits(Join(p, name))
    ensures ok ==> Holds(dst, Join(p, name))
  {
    hide Join;
    var i := start;
    Head(p, name);
    ghost var head := Join(p, []);
    assert i != 0 ==> dst[i - 1] == p[i - 1];
    if i != 0 && dst[i - 1] != ':' && dst[i - 1] != '/' {
      if i >= PATH_LEN - 1 { return false; }
      PutAt(dst, i, '/');
      i := i + 1;
    }
    var j := PutName(dst, i, name, head);
    ok := j == |name|;
    if ok { assert name[..j] == name; }
  }

  /** The name loop and the terminator; the result tells how much of the name fitted. */
  method PutName(dst: array<byte>, start: nat, name: CString, ghost head: CString) returns (j: nat)
    requires dst.Length == PATH_LEN && start == |head| <= PATH_LEN - 1 && dst[..start] == head
    modifies dst
    ensures j <= |name| && (j == |name| <==> |head| + |name| <= PATH_LEN - 1)
    ensures |head| + j < PATH_LEN && dst[..|head| + j] == head + name[..j] && dst[|head| + j] == '\0'
  {
    var i := start;
    j := 0;
    while j < |name| && i < PATH_LEN - 1
      invariant 0 <= j <= |name| && i == |head| + j <= PATH_LEN - 1
      invariant dst[..i] == head + name[..j]
    {
      PutAt(dst, i, name[j]);
      NextChar(head, name, j);
      i, j := i + 1, j + 1;
    }
    PutAt(dst, i, '\0');
  }

  lemma NextChar(head: string, name: string, j: nat)
    requires j < |name|
    ensures head + name[..j] + [name[j]] == head + name[..j + 1]
  {
  }

  // ------------------------------------------------------- DOS and its blocks

  /** A FileInfoBlock: besides the description of an object it carries the position of the listing. */
  class FileInfoBlock {
    var info: Info
    var name: CString
    var key: nat

    constructor ()
    {
      info, name, key := Info(0, 0), "", 0;
    }
  }

  /** A lock; null when Lock fails. */
  datatype FileLock = NoLock | FileLock(id: nat, path: CString)

  /** The DOS a walker runs on.  It may answer as a different volume at each call; when it is steady, it is
      the same volume all the time. */
  class Dos {
    const volume: Volume
    const answers: nat -> Volume  // what each call is answered from
    var calls: nat
    var held: set<nat>            // the locks not yet given back
    var nextId: nat
    var ioErr: int
    ghost var peak: nat           // the most locks ever held at once

    constructor (answers: nat -> Volume)
      ensures this.answers == answers && volume == answers(0) && Valid() && held == {} && peak == 0
    {
      this.answers, volume := answers, answers(0);
      calls, held, nextId, ioErr, peak := 0, {}, 0, 0, 0;
    }

    ghost predicate Valid()
      reads this
    {
      (forall id :: id in held ==> id < nextId) && |held| <= peak
    }

    ghost predicate Steady() {
      forall k: nat :: answers(k) == volume
    }

    /** The volume that answers the next call. */
    method Turn() returns (v: Volume)
      modifies `calls
      ensures Steady() ==> v == volume
    {
      v := answers(calls);
      calls := calls + 1;
    }

    method Lock(path: array<byte>, ghost p: CString) returns (lock: FileLock)
      requires Valid() && Holds(path, p)
      modifies this
      ensures Valid()
      ensures Steady() ==> (lock.NoLock? <==> !volume.locks(p))
      ensures lock.NoLock? ==> held == old(held) && peak == old(peak)
      ensures lock.FileLock? ==> lock.path == p && lock.id !in old(held) && held == old(held) + {lock.id}
      ensures lock.FileLock? ==> |held| == |old(held)| + 1 && peak == if old(peak) > |held| then old(peak) else |held|
    {
      TextIs(path[..], p);
      var text := Text(path[..]);
      var v := Turn();
      if !v.locks(text) { return NoLock; }
      lock := FileLock(nextId, text);
      held := held + {nextId};
      nextId := nextId + 1;
      if peak < |held| { peak := |held|; }
    }

    method UnLock(lock: FileLock)
      requires Valid() && lock.FileLock? && lock.id in held
      modifies this
      ensures Valid() && held == old(held) - {lock.id} && peak == old(peak)
    {
      held := held - {lock.id};
    }

    /** Examine describes the locked object and starts its listing. */
    method Examine(lock: FileLock, fib: FileInfoBlock) returns (ok: bool)
      requires lock.FileLock? && lock.id in held
      modifies fib, `calls
      ensures ok ==> fib.key == 0
      ensures Steady() ==> (ok <==> volume.examine(lock.path).Some?)
      ensures Steady() && ok ==> fib.info == volume.examine(lock.path).value
    {
      var v := Turn();
      var answer := v.examine(lock.path);
      ok := answer.Some?;
      if ok { fib.info, fib.key := answer.value, 0; }
    }

    /** ExNext goes on from the position in the block. */
    method ExNext(lock: FileLock, fib: FileInfoBlock) returns (ok: bool)
      requires lock.FileLock? && lock.id in held
      modifies fib, `calls, `ioErr
      ensures ok ==> fib.key == old(fib.key) + 1
      ensures Steady() ==> (ok <==> volume.list(lock.path, old(fib.key)).Next?)
      ensures Steady() && ok ==> volume.list(lock.path, old(fib.key)) == Next(fib.name, fib.info)
      ensures Steady() && !ok ==> volume.list(lock.path, old(fib.key)) == Stop(ioErr)
    {
      var v := Turn();
      var answer := v.list(lock.path, fib.key);
      match answer
      case Next(name, info) =>
        fib.name, fib.info, fib.key := name, info, fib.key + 1;
        ok := true;
      case Stop(code) =>
        ioErr := code;
        ok := false;
    }
  }

  /** The static work buffers, one FileInfoBlock and one path per depth. */
  class Slots {
    const fibs: seq<FileInfoBlock>
    const paths: seq<array<byte>>

    ghost predicate Valid() {
      && |fibs| == |paths| == MAX_DEPTH + 1
      && (forall i, j :: 0 <= i < j <= MAX_DEPTH ==> fibs[i] != fibs[j])
      && (forall i, j :: 0 <= i < j <= MAX_DEPTH ==> paths[i] != paths[j])
      && (forall i :: 0 <= i <= MAX_DEPTH ==> paths[i].Length == PATH_LEN)
    }

    constructor ()
      ensures Valid() && fresh(From(0))
    {
      var blocks: seq<FileInfoBlock>, buffers: seq<array<byte>> := [], [];
      for n := 0 to MAX_DEPTH + 1
        invariant |blocks| == |buffers| == n
        invariant forall i :: 0 <= i < n ==> fresh(blocks[i]) && fresh(buffers[i]) && buffers[i].Length == PATH_LEN
        invariant forall i, j :: 0 <= i < j < n ==> blocks[i] != blocks[j] && buffers[i] != buffers[j]
      {
        var block := new FileInfoBlock();
        var buffer := new byte[PATH_LEN];
        blocks, buffers := blocks + [block], buffers + [buffer];
      }
      fibs, paths := blocks, buffers;
    }

    /** The buffers that belong to a depth or to deeper levels. */
    ghost function From(depth: nat): set<object>
      requires |fibs| == |paths|
    {
      (set i | depth <= i < |fibs| :: fibs[i] as object) + (set i | depth <= i < |paths| :: paths[i] as object)
    }

    lemma Layers(depth: nat)
      requires Valid() && depth <= MAX_DEPTH
      ensures fibs[depth] in From(depth) && paths[depth] in From(depth)
      ensures fibs[depth] !in From(depth + 1) && paths[depth] !in From(depth + 1)
      ensures From(depth + 1) <= From(depth)
    {
    }
  }

  /** The most locks held at once when a scan starts at a depth with some already held. */
  function PeakBound(peak: nat, held: nat, depth: nat): nat
    requires depth <= MAX_DEPTH + 1
  {
    var most := held + MAX_DEPTH + 1 - depth;
    if peak > most then peak else most
  }

  lemma AddRemove(s: set<nat>, x: nat)
    requires x !in s
    ensures (s + {x}) - {x} == s
  {
  }
}
