/** Snapshot: the KEY=value record of a machine's state, and what SnapDiff makes of two of them. */
module Snapshot {
  import opened Bytes
  import opened Numbers
  import opened Streams
  import opened Chains
  import SnapDiff

  const MAX_LIST_NODES := 512

  // ---------------------------------------------------------- counting lists

  /** An Exec list ends at the node without successor, its tail marker. */
  ghost predicate EndsAt(next: Address -> Address, head: Address, k: nat) {
    At(next, head, k) == NULL || next(At(next, head, k)) == NULL
  }

  ghost predicate HasLength(next: Address -> Address, head: Address, n: nat) {
    EndsAt(next, head, n) && forall k: nat :: k < n ==> !EndsAt(next, head, k)
  }

  ghost predicate Endless(next: Address -> Address, head: Address) {
    forall k: nat :: !EndsAt(next, head, k)
  }

  datatype ListCount = ListCount(count: ULONG, truncated: bool)

  ghost predicate Counts(next: Address -> Address, head: Address, c: ListCount) {
    && (forall n: nat :: HasLength(next, head, n) ==>
         c.count == (if n < 512 then n else 512) && (c.truncated <==> n > 512))
    && (Endless(next, head) ==> c.count == 512 && c.truncated)
  }

  /** The successors in a list of n nodes at the addresses from 1 on, followed by its tail marker. */
  function Row(n: nat): Address -> Address {
    a => if a <= n then a + 1 else NULL
  }

  lemma {:induction false} RowAt(n: nat, k: nat)
    requires k <= n
    ensures At(Row(n), 1, k) == k + 1
  {
    if k > 0 { RowAt(n, k - 1); }
  }

  /** The tail marker is not counted. */
  lemma RowLength(n: nat)
    ensures HasLength(Row(n), 1, n)
  {
    hide At;
    forall k: nat | k <= n ensures At(Row(n), 1, k) == k + 1 { RowAt(n, k); }
  }

  /** count_list: counts at most 512 nodes, also of a list that never ends. */
  method CountList(next: Address -> Address, head: Address) returns (result: ListCount)
    ensures Counts(next, head, result)
    ensures result.count <= MAX_LIST_NODES
  {
    var count: ULONG := 0;
    var node := head;
    while node != NULL && next(node) != NULL && count < MAX_LIST_NODES
      invariant count <= MAX_LIST_NODES && node == At(next, head, count)
      invariant forall k: nat :: k < count ==> !EndsAt(next, head, k)
      decreases MAX_LIST_NODES - count
    {
      node := next(node);
      count := count + 1;
    }
    result := ListCount(count, node != NULL && next(node) != NULL);
    assert result.truncated <==> !EndsAt(next, head, count);
    assert !result.truncated ==> HasLength(next, head, count);
  }

  // -------------------------------------------------------------- the record

  const VALUES := 14

  function Header(): seq<byte> { "Snapshot 0.1\nAmiInternals - Ploos AS\n\n" }

  function Format(): seq<byte> { "FORMAT" }

  /** The keys of the recorded values, in output order. */
  function Key(i: nat): seq<byte>
    requires i < VALUES
  {
    match i
    case 0 => "EXEC_VERSION"
    case 1 => "EXEC_REVISION"
    case 2 => "CHIP_FREE"
    case 3 => "FAST_FREE"
    case 4 => "ANY_FREE"
    case 5 => "CHIP_LARGEST"
    case 6 => "FAST_LARGEST"
    case 7 => "ANY_LARGEST"
    case 8 => "TASK_READY"
    case 9 => "TASK_WAIT"
    case 10 => "LIBRARIES"
    case 11 => "DEVICES"
    case 12 => "RESOURCES"
    case _ => "TRUNCATED"
  }

  ghost function Field(key: seq<byte>, value: nat): seq<byte> {
    key + ['='] + Decimal(value) + ['\n']
  }

  /** The output up to and including the first n recorded values. */
  ghost function Record(values: seq<ULONG>, n: nat): seq<byte>
    requires n <= VALUES == |values|
  {
    if n == 0 then Header() + Field(Format(), 1)
    else Record(values, n - 1) + Field(Key(n - 1), values[n - 1])
  }

  ghost function Text(values: seq<ULONG>): seq<byte>
    requires |values| == VALUES
  {
    Record(values, VALUES)
  }

  /** A text that ends in a line determines that line and what stands before it. */
  lemma LastLineUnique(a: seq<byte>, b: seq<byte>, x: seq<byte>, y: seq<byte>, mark: byte)
    requires a + [mark] + x + ['\n'] == b + [mark] + y + ['\n']
    requires mark !in x && mark !in y
    ensures a == b && x == y
  {
    var s, t := a + [mark] + x, b + [mark] + y;
    assert s == (s + ['\n'])[..|s|] && t == (t + ['\n'])[..|t|];
    assert s == t;
    assert |a| == |b| by {
      assert s[|a|] == mark && t[|b|] == mark;
    }
    assert a == s[..|a|] && b == t[..|a|];
    assert x == s[|a| + 1..] && y == t[|a| + 1..];
  }

  lemma {:induction false} RecordInjective(v: seq<ULONG>, w: seq<ULONG>, n: nat)
    requires n <= VALUES == |v| == |w|
    requires Record(v, n) == Record(w, n)
    ensures v[..n] == w[..n]
  {
    hide Key, Header, Format;
    if n > 0 {
      var before, before' := Record(v, n - 1) + Key(n - 1), Record(w, n - 1) + Key(n - 1);
      var x, y := Decimal(v[n - 1]), Decimal(w[n - 1]);
      FieldAppended(Record(v, n - 1), Key(n - 1), v[n - 1]);
      FieldAppended(Record(w, n - 1), Key(n - 1), w[n - 1]);
      LastLineUnique(before, before', x, y, '=');
      DecimalInjective(v[n - 1], w[n - 1]);
      SamePrefix(Record(v, n - 1), Record(w, n - 1), Key(n - 1));
      RecordInjective(v, w, n - 1);
      assert v[..n] == v[..n - 1] + [v[n - 1]] && w[..n] == w[..n - 1] + [w[n - 1]];
    }
  }

  lemma FieldAppended(record: seq<byte>, key: seq<byte>, value: nat)
    ensures record + Field(key, value) == (record + key) + ['='] + Decimal(value) + ['\n']
  {
  }

  lemma SamePrefix(a: seq<byte>, b: seq<byte>, c: seq<byte>)
    requires a + c == b + c
    ensures a == b
  {
    assert |a| == |b|;
    assert a == (a + c)[..|a|] && b == (b + c)[..|b|];
  }

  /** Two snapshots have the same text exactly when all recorded values agree; so SnapDiff, on
      complete reads of the two files, reports IDENTICAL exactly then. */
  lemma SnapshotsCompare(v: seq<ULONG>, w: seq<ULONG>)
    requires |v| == |w| == VALUES
    ensures Text(v) == Text(w) <==> v == w
    ensures SnapDiff.Whole(Text(v), Text(w)).differ <==> v != w
    ensures SnapDiff.Distance(Text(v), Text(w)) == 0 <==> v == w
  {
    if Text(v) == Text(w) {
      RecordInjective(v, w, VALUES);
      assert v[..VALUES] == v && w[..VALUES] == w;
    }
    hide Text;
    SnapDiff.DistanceZero(Text(v), Text(w));
  }

  lemma KeysNamed(i: nat)
    requires i < 14
    ensures Key(i) == ["EXEC_VERSION", "EXEC_REVISION", "CHIP_FREE", "FAST_FREE", "ANY_FREE", "CHIP_LARGEST", "FAST_LARGEST",
                       "ANY_LARGEST", "TASK_READY", "TASK_WAIT", "LIBRARIES", "DEVICES", "RESOURCES", "TRUNCATED"][i]
  {
  }

  /** The text of a snapshot: the heading, the format, and one line KEY=value for each of the 14 values, in this order. */
  lemma TextReadsBack(v: seq<ULONG>) returns (lines: seq<seq<byte>>, numerals: seq<seq<byte>>)
    requires |v| == 14
    ensures Text(v) == "Snapshot 0.1\nAmiInternals - Ploos AS\n\nFORMAT=1\n" + Flatten<byte>(lines)
    ensures |lines| == |numerals| == 14 && forall i :: 0 <= i < 14 ==>
      lines[i] == ["EXEC_VERSION", "EXEC_REVISION", "CHIP_FREE", "FAST_FREE", "ANY_FREE", "CHIP_LARGEST", "FAST_LARGEST",
                   "ANY_LARGEST", "TASK_READY", "TASK_WAIT", "LIBRARIES", "DEVICES", "RESOURCES", "TRUNCATED"][i]
                  + "=" + numerals[i] + "\n"
    ensures forall i :: 0 <= i < 14 ==> IsDecimal(numerals[i], v[i])
  {
    hide Record, Key, Flatten, IsDecimal, Decimal;
    lines, numerals := RecordLines(v, 14);
    HeadingNamed(v);
    forall i | 0 <= i < 14 { KeysNamed(i); }
  }

  lemma HeadingNamed(v: seq<ULONG>)
    requires |v| == 14
    ensures Record(v, 0) == "Snapshot 0.1\nAmiInternals - Ploos AS\n\nFORMAT=1\n"
  {
    var heading: string, format: string := "Snapshot 0.1\nAmiInternals - Ploos AS\n\n", "FORMAT=1\n";
    assert Header() == heading && Format() == "FORMAT";
    DecimalReadsBack(1);
    assert Decimal(1) == ['1'];
    assert Field(Format(), 1) == format;
    assert heading + format == "Snapshot 0.1\nAmiInternals - Ploos AS\n\nFORMAT=1\n";
  }

  lemma {:induction false} RecordLines(v: seq<ULONG>, n: nat) returns (lines: seq<seq<byte>>, numerals: seq<seq<byte>>)
    requires n <= VALUES == |v|
    ensures Record(v, n) == Record(v, 0) + Flatten(lines)
    ensures |lines| == |numerals| == n
    ensures forall i :: 0 <= i < n ==> lines[i] == Key(i) + ['='] + numerals[i] + ['\n'] && IsDecimal(numerals[i], v[i])
  {
    hide Key, IsDecimal, Decimal, Header, Format;
    if n == 0 {
      lines, numerals := [], [];
    } else {
      lines, numerals := RecordLines(v, n - 1);
      var line := Field(Key(n - 1), v[n - 1]);
      DecimalIs(v[n - 1]);
      FlattenSnoc(lines, line);
      Assoc(Record(v, 0), Flatten(lines), line);
      lines, numerals := lines + [line], numerals + [Decimal(v[n - 1])];
    }
  }

  // -------------------------------------------------------------- the program

  /** What ai_get_exec_info reports. */
  datatype ExecInfo = ExecInfo(version: ULONG, revision: ULONG,
                               chipFree: ULONG, fastFree: ULONG, anyFree: ULONG,
                               chipLargest: ULONG, fastLargest: ULONG, anyLargest: ULONG)

  /** The heads of the five Exec lists. */
  datatype ExecLists = ExecLists(ready: Address, waiting: Address, libraries: Address,
                                 devices: Address, resources: Address)

  /** put_key_u32. */
  method PutKey(out: Sink, key: seq<byte>, value: ULONG)
    modifies out
    ensures out.Appended(old(out.written), old(out.failed), Field(key, value))
  {
    hide Decimal;
    out.Puts(key);
    out.Puts(['=']);
    PutU32(out, value);
    out.Puts(['\n']);
  }

  /** One of main's calls of put_key_u32, after the values before it. */
  method PutValue(out: Sink, i: nat, value: ULONG, ghost v: seq<ULONG>, ghost base: seq<byte>, ghost failed: bool)
    requires i < VALUES == |v| && v[i] == value
    requires out.Appended(base, failed, Record(v, i))
    modifies out
    ensures out.Appended(base, failed, Record(v, i + 1))
  {
    hide Field, Key;
    PutKey(out, Key(i), value);
    Assoc(base, Record(v, i), Field(Key(i), v[i]));
  }

  /** The five list counts main takes. */
  datatype ListCounts = ListCounts(ready: ListCount, waiting: ListCount, libraries: ListCount,
                                   devices: ListCount, resources: ListCount)
  {
    predicate Truncated() {
      ready.truncated || waiting.truncated || libraries.truncated || devices.truncated || resources.truncated
    }
  }

  ghost function Recorded(info: ExecInfo, c: ListCounts): (values: seq<ULONG>)
    ensures |values| == VALUES
  {
    [info.version, info.revision, info.chipFree, info.fastFree, info.anyFree,
     info.chipLargest, info.fastLargest, info.anyLargest,
     c.ready.count, c.waiting.count, c.libraries.count, c.devices.count, c.resources.count,
     if c.Truncated() then 1 else 0]
  }

  method Run(info: ExecInfo, lists: ExecLists, next: Address -> Address, out: Sink)
    returns (code: int, ghost counts: ListCounts)
    modifies out
    ensures Counts(next, lists.ready, counts.ready) && Counts(next, lists.waiting, counts.waiting)
    ensures Counts(next, lists.libraries, counts.libraries) && Counts(next, lists.devices, counts.devices)
    ensures Counts(next, lists.resources, counts.resources)
    ensures out.Appended(old(out.written), old(out.failed), Text(
      [info.version, info.revision, info.chipFree, info.fastFree, info.anyFree,
       info.chipLargest, info.fastLargest, info.anyLargest,
       counts.ready.count, counts.waiting.count, counts.libraries.count, counts.devices.count, counts.resources.count,
       if counts.ready.truncated || counts.waiting.truncated || counts.libraries.truncated
          || counts.devices.truncated || counts.resources.truncated then 1 else 0]))
    ensures code ==
      if counts.ready.truncated || counts.waiting.truncated || counts.libraries.truncated
         || counts.devices.truncated || counts.resources.truncated then 5 else 0
  {
    hide Counts, Text;
    var ready := CountList(next, lists.ready);
    var waiting := CountList(next, lists.waiting);
    var libraries := CountList(next, lists.libraries);
    var devices := CountList(next, lists.devices);
    var resources := CountList(next, lists.resources);
    var truncated: ULONG := if ready.truncated || waiting.truncated || libraries.truncated
                               || devices.truncated || resources.truncated then 1 else 0;
    counts := ListCounts(ready, waiting, libraries, devices, resources);
    PutAll(out, Recorded(info, counts), info, ready.count, waiting.count, libraries.count,
           devices.count, resources.count, truncated);
    code := if truncated != 0 then 5 else 0;
  }

  /** The ordered output of main. */
  method PutAll(out: Sink, ghost v: seq<ULONG>, info: ExecInfo, ready: ULONG, waiting: ULONG, libraries: ULONG,
                devices: ULONG, resources: ULONG, truncated: ULONG)
    requires |v| == VALUES
    requires v[0] == info.version && v[1] == info.revision
    requires v[2] == info.chipFree && v[3] == info.fastFree && v[4] == info.anyFree
    requires v[5] == info.chipLargest && v[6] == info.fastLargest && v[7] == info.anyLargest
    requires v[8] == ready && v[9] == waiting && v[10] == libraries && v[11] == devices && v[12] == resources
    requires v[13] == truncated
    modifies out
    ensures out.Appended(old(out.written), old(out.failed), Text(v))
  {
    ghost var base, failed := out.written, out.failed;
    PutHeader(out, v);
    hide Record;
    PutValue(out, 0, info.version, v, base, failed);
    PutValue(out, 1, info.revision, v, base, failed);
    PutValue(out, 2, info.chipFree, v, base, failed);
    PutValue(out, 3, info.fastFree, v, base, failed);
    PutValue(out, 4, info.anyFree, v, base, failed);
    PutValue(out, 5, info.chipLargest, v, base, failed);
    PutValue(out, 6, info.fastLargest, v, base, failed);
    PutValue(out, 7, info.anyLargest, v, base, failed);
    PutValue(out, 8, ready, v, base, failed);
    PutValue(out, 9, waiting, v, base, failed);
    PutValue(out, 10, libraries, v, base, failed);
    PutValue(out, 11, devices, v, base, failed);
    PutValue(out, 12, resources, v, base, failed);
    PutValue(out, 13, truncated, v, base, failed);
  }

  method PutHeader(out: Sink, ghost v: seq<ULONG>)
    requires |v| == VALUES
    modifies out
    ensures out.Appended(old(out.written), old(out.failed), Record(v, 0))
  {
    hide Header, Format, Field;
    ghost var base := out.written;
    out.Puts(Header());
    PutKey(out, Format(), 1);
    Assoc(base, Header(), Field(Format(), 1));
  }
}
