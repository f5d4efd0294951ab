/** SnapDiff: lock-step comparison of two files, block by block. */
module SnapDiff {
  import opened Bytes
  import opened Numbers
  import opened Streams

  const READ_SIZE := 256

  function Max(a: int, b: int): int {
    if a >= b then a else b
  }

  // ----------------------------------------------------------- specification

  /** Positions at which two byte strings disagree, counting those only one of them has. */
  ghost function Distance(a: seq<byte>, b: seq<byte>): nat {
    if a == [] then |b|
    else if b == [] then |a|
    else (if a[0] != b[0] then 1 else 0) + Distance(a[1..], b[1..])
  }

  ghost function FirstDifference(a: seq<byte>, b: seq<byte>): (k: nat)
    ensures k <= |a| && k <= |b|
  {
    if a == [] || b == [] || a[0] != b[0] then 0 else 1 + FirstDifference(a[1..], b[1..])
  }

  datatype Report = Report(differ: bool, first: nat, differing: nat, compared: nat)

  /** The meaning of the report, for whole files. */
  ghost function Whole(a: seq<byte>, b: seq<byte>): Report {
    Report(a != b, if a != b then FirstDifference(a, b) else 0, Distance(a, b), Max(|a|, |b|))
  }

  /** What one pair of blocks adds to a report. */
  ghost function Step(r: Report, left: seq<byte>, right: seq<byte>): Report {
    var w := Whole(left, right);
    Report(r.differ || w.differ,
           if r.differ || !w.differ then r.first else r.compared + w.first,
           r.differing + w.differing,
           r.compared + w.compared)
  }

  const START := Report(false, 0, 0, 0)

  ghost function Blocks(lefts: seq<seq<byte>>, rights: seq<seq<byte>>): Report
    requires |lefts| == |rights|
  {
    if lefts == [] then START
    else
      var n := |lefts| - 1;
      Step(Blocks(lefts[..n], rights[..n]), lefts[n], rights[n])
  }

  // -------------------------------------------------------------- the metric

  lemma {:induction false} DistanceZero(a: seq<byte>, b: seq<byte>)
    ensures Distance(a, b) == 0 <==> a == b
  {
    if a != [] && b != [] {
      DistanceZero(a[1..], b[1..]);
      assert a == [a[0]] + a[1..] && b == [b[0]] + b[1..];
    }
  }

  lemma {:induction false} DistanceSymmetric(a: seq<byte>, b: seq<byte>)
    ensures Distance(a, b) == Distance(b, a)
  {
    if a != [] && b != [] { DistanceSymmetric(a[1..], b[1..]); }
  }

  lemma {:induction false} DistanceBounds(a: seq<byte>, b: seq<byte>)
    ensures |a| - |b| <= Distance(a, b) <= Max(|a|, |b|)
  {
    if a != [] && b != [] { DistanceBounds(a[1..], b[1..]); }
  }

  lemma {:induction false} DistanceTriangle(a: seq<byte>, b: seq<byte>, c: seq<byte>)
    ensures Distance(a, c) <= Distance(a, b) + Distance(b, c)
  {
    if b == [] {
      DistanceBounds(a, c);
    } else if a == [] {
      DistanceBounds(c, b);
      DistanceSymmetric(b, c);
    } else if c == [] {
      DistanceBounds(a, b);
    } else {
      DistanceTriangle(a[1..], b[1..], c[1..]);
    }
  }

  /** The first difference is the least position at which the files do not agree. */
  lemma {:induction false} FirstDifferenceIsLeast(a: seq<byte>, b: seq<byte>)
    ensures var k := FirstDifference(a, b);
            a[..k] == b[..k] && (k < |a| && k < |b| ==> a[k] != b[k])
    ensures a != b ==> var k := FirstDifference(a, b); k < |a| || k < |b|
  {
    if a != [] && b != [] && a[0] == b[0] {
      FirstDifferenceIsLeast(a[1..], b[1..]);
      var k := FirstDifference(a[1..], b[1..]);
      assert a[..k + 1] == [a[0]] + a[1..][..k];
      assert b[..k + 1] == [b[0]] + b[1..][..k];
      assert a == [a[0]] + a[1..] && b == [b[0]] + b[1..];
    }
  }

  lemma FirstDifferenceUnique(a: seq<byte>, b: seq<byte>, k: nat)
    requires k <= |a| && k <= |b| && a[..k] == b[..k]
    requires k == |a| || k == |b| || a[k] != b[k]
    ensures FirstDifference(a, b) == k
  {
    FirstDifferenceIsLeast(a, b);
    var j := FirstDifference(a, b);
    hide FirstDifference;
    forall q | 0 <= q < k ensures a[q] == b[q] { assert a[..k][q] == b[..k][q]; }
    forall q | 0 <= q < j ensures a[q] == b[q] { assert a[..j][q] == b[..j][q]; }
  }

  /** The positions both files have and at which they differ. */
  ghost function Differing(a: seq<byte>, b: seq<byte>): set<nat> {
    set k: nat | k < |a| && k < |b| && a[k] != b[k]
  }

  /** The distance is the number of such positions and of the positions only one file has. */
  lemma {:induction false} DistanceCounts(a: seq<byte>, b: seq<byte>)
    ensures Distance(a, b) == |set k: nat | k < |a| && k < |b| && a[k] != b[k]|
                              + if |a| >= |b| then |a| - |b| else |b| - |a|
    decreases |a|
  {
    if a == [] || b == [] {
      assert Differing(a, b) == {};
    } else {
      var n := if |a| <= |b| then |a| - 1 else |b| - 1;
      DistanceCounts(a[1..], b[1..]);
      DifferingStep(a, b);
    }
  }

  lemma DifferingStep(a: seq<byte>, b: seq<byte>)
    requires a != [] && b != []
    ensures |Differing(a, b)| == (if a[0] != b[0] then 1 else 0) + |Differing(a[1..], b[1..])|
  {
    var later := Differing(a[1..], b[1..]);
    ShiftedSize(later);
    var shifted := Shifted(later);
    assert Differing(a, b) == (if a[0] != b[0] then {0} else {}) + shifted by {
      forall k: nat | k > 0 ensures k in Differing(a, b) <==> k in shifted {
        if k < |a| && k < |b| { assert a[k] == a[1..][k - 1] && b[k] == b[1..][k - 1]; }
        if k in Differing(a, b) { assert k - 1 in later; }
      }
    }
    assert 0 !in shifted;
  }

  ghost function Shifted(s: set<nat>): set<nat> {
    set k | k in s :: k + 1
  }

  lemma {:induction false} ShiftedSize(s: set<nat>)
    ensures |Shifted(s)| == |s|
  {
    if s != {} {
      var k :| k in s;
      ShiftedSize(s - {k});
      var rest := s - {k};
      assert s == rest + {k};
      forall x: nat ensures x in Shifted(s) <==> x in Shifted(rest) || x == k + 1 {
        if x in Shifted(s) {
          var j :| j in s && x == j + 1;
          assert j == k || j in rest;
        }
      }
      assert Shifted(s) == Shifted(rest) + {k + 1};
    }
  }

  // ----------------------------------------------- blocks against whole files

  /** Comparison so far and the next blocks belong to the same positions of both files. */
  ghost predicate InStep(a: seq<byte>, x: nat, b: seq<byte>, y: nat) {
    x <= |a| && y <= |b| && (x < y ==> x == |a|) && (y < x ==> y == |b|)
  }

  lemma {:induction false} DistanceConcat(a: seq<byte>, b: seq<byte>, c: seq<byte>, d: seq<byte>)
    requires |a| == |b| || (|a| < |b| && c == []) || (|b| < |a| && d == [])
    ensures Distance(a + c, b + d) == Distance(a, b) + Distance(c, d)
  {
    if a == [] {
      assert a + c == c;
      if b == [] { assert b + d == d; }
    } else if b == [] {
      assert b + d == d;
    } else {
      assert (a + c)[1..] == a[1..] + c && (b + d)[1..] == b[1..] + d;
      DistanceConcat(a[1..], b[1..], c, d);
    }
  }

  lemma WholeConcat(a: seq<byte>, b: seq<byte>, c: seq<byte>, d: seq<byte>)
    requires |a| == |b| || (|a| < |b| && c == []) || (|b| < |a| && d == [])
    ensures Whole(a + c, b + d) == Step(Whole(a, b), c, d)
  {
    hide FirstDifference, Distance;
    DistanceConcat(a, b, c, d);
    FirstDifferenceIsLeast(a, b);
    FirstDifferenceIsLeast(c, d);
    var i, j := FirstDifference(a, b), FirstDifference(c, d);
    if a != b {
      FirstDifferenceCarries(a, b, c, d);
    } else {
      assert (a + c)[|a|..] == c && (a + d)[|a|..] == d;
      if c != d {
        assert (a + c)[..|a| + j] == a + c[..j] && (b + d)[..|b| + j] == b + d[..j];
        FirstDifferenceUnique(a + c, b + d, |a| + j);
      }
    }
  }

  lemma FirstDifferenceCarries(a: seq<byte>, b: seq<byte>, c: seq<byte>, d: seq<byte>)
    requires a != b
    requires |a| == |b| || (|a| < |b| && c == []) || (|b| < |a| && d == [])
    ensures a + c != b + d && FirstDifference(a + c, b + d) == FirstDifference(a, b)
  {
    FirstDifferenceIsLeast(a, b);
    var i := FirstDifference(a, b);
    hide FirstDifference;
    assert (a + c)[..i] == a[..i] && (b + d)[..i] == b[..i];
    if i < |a| && i < |b| {
      assert (a + c)[i] != (b + d)[i];
    }
    FirstDifferenceUnique(a + c, b + d, i);
  }

  /** Blocks taken in step report on the files read so far. */
  lemma StepIsWhole(a: seq<byte>, x: nat, x': nat, b: seq<byte>, y: nat, y': nat)
    requires InStep(a, x, b, y) && x <= x' <= |a| && y <= y' <= |b|
    ensures Whole(a[..x'], b[..y']) == Step(Whole(a[..x], b[..y]), a[x..x'], b[y..y'])
  {
    assert a[..x'] == a[..x] + a[x..x'] && b[..y'] == b[..y] + b[y..y'];
    WholeConcat(a[..x], b[..y], a[x..x'], b[y..y']);
  }

  /** Whatever the read sizes, the report says IDENTICAL exactly when the reads were cut alike. */
  lemma {:induction false} IdenticalBlocks(lefts: seq<seq<byte>>, rights: seq<seq<byte>>)
    requires |lefts| == |rights|
    ensures !Blocks(lefts, rights).differ <==> lefts == rights
  {
    if lefts != [] {
      var n := |lefts| - 1;
      IdenticalBlocks(lefts[..n], rights[..n]);
      assert lefts == lefts[..n] + [lefts[n]] && rights == rights[..n] + [rights[n]];
    }
  }

  /** So IDENTICAL is never reported for different files. */
  lemma IdenticalIsSound(lefts: seq<seq<byte>>, rights: seq<seq<byte>>)
    requires |lefts| == |rights| && !Blocks(lefts, rights).differ
    ensures Flatten(lefts) == Flatten(rights)
  {
    IdenticalBlocks(lefts, rights);
  }

  /** But equal files are reported as DIFFERENT when one of the two reads comes back short. */
  lemma ShortReadsMislead(x: byte, y: byte)
    ensures var lefts, rights := [[x], [y]], [[x, y], []];
            Flatten(lefts) == Flatten(rights) && Blocks(lefts, rights).differ
  {
    var lefts: seq<seq<byte>>, rights: seq<seq<byte>> := [[x], [y]], [[x, y], []];
    IdenticalBlocks(lefts, rights);
    assert lefts[0] != rights[0];
    assert lefts == [[x]] + [[y]] && rights == [[x, y]] + [[]];
    FlattenSnoc([[x]], [y]);
    FlattenSnoc([[x, y]], []);
    assert Flatten([[x]]) == [x] && Flatten([[x, y]]) == [x, y];
  }

  // -------------------------------------------------------------- the program

  /** The variables of main hold a report in 32-bit arithmetic. */
  ghost predicate Holds(r: Report, haveDiff: bool, firstDiff: ULONG, differing: ULONG, offset: ULONG) {
    && haveDiff == r.differ && firstDiff == Wrap(r.first)
    && differing == Wrap(r.differing) && offset == Wrap(r.compared)
  }

  /** One more position of two blocks. */
  lemma NextPosition(r: Report, a: seq<byte>, b: seq<byte>, i: nat)
    requires i < |a| && i < |b|
    ensures var before, after := Step(r, a[..i], b[..i]), Step(r, a[..i + 1], b[..i + 1]);
            && after.differ == (before.differ || a[i] != b[i])
            && after.first == (if before.differ || a[i] == b[i] then before.first else r.compared + i)
            && after.differing == before.differing + if a[i] != b[i] then 1 else 0
  {
    StepIsWhole(a, i, i + 1, b, i, i + 1);
    assert a[i..i + 1] == [a[i]] && b[i..i + 1] == [b[i]];
    assert Distance([a[i]], [b[i]]) == if a[i] != b[i] then 1 else 0;
    if a[i] == b[i] { assert FirstDifference([a[i]], [b[i]]) == 1; }
  }

  /** The positions only one of two blocks has. */
  lemma LastPositions(r: Report, a: seq<byte>, b: seq<byte>, i: nat)
    requires i == Min(|a|, |b|)
    ensures var before, after := Step(r, a[..i], b[..i]), Step(r, a, b);
            && after.differ == (before.differ || |a| != |b|)
            && after.first == (if before.differ || |a| == |b| then before.first else r.compared + i)
            && after.differing == before.differing + Max(|a|, |b|) - i
            && after.compared == r.compared + Max(|a|, |b|)
  {
    StepIsWhole(a, i, |a|, b, i, |b|);
    assert a[..|a|] == a && b[..|b|] == b;
    assert a[i..] == [] || b[i..] == [];
  }

  /** The position loop over the common part of two blocks. */
  method CompareCommon(leftBuf: array<byte>, rightBuf: array<byte>, common: nat,
                       have0: bool, first0: ULONG, differing0: ULONG, offset: ULONG,
                       ghost r: Report, ghost a: seq<byte>, ghost b: seq<byte>)
    returns (haveDiff: bool, firstDiff: ULONG, differing: ULONG)
    requires common <= |a| <= leftBuf.Length && common <= |b| <= rightBuf.Length
    requires a == leftBuf[..|a|] && b == rightBuf[..|b|]
    requires Holds(r, have0, first0, differing0, offset)
    ensures var now := Step(r, a[..common], b[..common]);
            haveDiff == now.differ && firstDiff == Wrap(now.first) && differing == Wrap(now.differing)
  {
    hide Step, Wrap;
    haveDiff, firstDiff, differing := have0, first0, differing0;
    NoStep(r, a, b);
    var i := 0;
    while i < common
      invariant 0 <= i <= common
      invariant var now := Step(r, a[..i], b[..i]);
                haveDiff == now.differ && firstDiff == Wrap(now.first) && differing == Wrap(now.differing)
    {
      NextPosition(r, a, b, i);
      if leftBuf[i] != rightBuf[i] {
        if !haveDiff {
          firstDiff := Wrap(offset + i);
          WrapAdd(r.compared, i);
          haveDiff := true;
        }
        WrapAdd(Step(r, a[..i], b[..i]).differing, 1);
        differing := Wrap(differing + 1);
      }
      i := i + 1;
    }
  }

  /** The loop body after both reads: compares the common part, then accounts for the longer block. */
  method CompareBlocks(leftBuf: array<byte>, leftGot: nat, rightBuf: array<byte>, rightGot: nat,
                       have0: bool, first0: ULONG, differing0: ULONG, offset0: ULONG, ghost r: Report)
    returns (haveDiff: bool, firstDiff: ULONG, differing: ULONG, offset: ULONG)
    requires leftGot <= leftBuf.Length && rightGot <= rightBuf.Length
    requires Holds(r, have0, first0, differing0, offset0)
    ensures Holds(Step(r, leftBuf[..leftGot], rightBuf[..rightGot]), haveDiff, firstDiff, differing, offset)
  {
    hide Step, Wrap;
    offset := offset0;
    ghost var a, b := leftBuf[..leftGot], rightBuf[..rightGot];
    var common := if leftGot < rightGot then leftGot else rightGot;
    haveDiff, firstDiff, differing :=
      CompareCommon(leftBuf, rightBuf, common, have0, first0, differing0, offset, r, a, b);
    LastPositions(r, a, b, common);
    if leftGot != rightGot {
      var extra := if leftGot > rightGot then leftGot - rightGot else rightGot - leftGot;
      if !haveDiff {
        firstDiff := Wrap(offset + common);
        WrapAdd(r.compared, common);
        haveDiff := true;
      }
      WrapAdd(Step(r, a[..common], b[..common]).differing, extra);
      differing := Wrap(differing + extra);
    }
    var longest := if leftGot > rightGot then leftGot else rightGot;
    WrapAdd(r.compared, longest);
    offset := Wrap(offset + longest);
  }

  /** The comparison loop of main.  `lefts` and `rights` are the blocks the reads delivered. */
  method Compare(left: InFile, right: InFile)
    returns (ok: bool, haveDiff: bool, firstDiff: ULONG, differing: ULONG, offset: ULONG,
             ghost lefts: seq<seq<byte>>, ghost rights: seq<seq<byte>>)
    requires left != right && left.pos == 0 && right.pos == 0
    requires !left.failed && !right.failed && !left.short && !right.short
    modifies left, right
    ensures ok <==> !left.failed && !right.failed
    ensures ok ==> |lefts| == |rights| && Flatten(lefts) == left.contents && Flatten(rights) == right.contents
    ensures ok ==> Holds(Blocks(lefts, rights), haveDiff, firstDiff, differing, offset)
    ensures ok && !left.short && !right.short ==> Blocks(lefts, rights) == Whole(left.contents, right.contents)
  {
    hide Blocks, Holds, Whole, Step, Flatten;
    var leftBuf, rightBuf := new byte[READ_SIZE], new byte[READ_SIZE];
    ghost var a, b := left.contents, right.contents;
    ghost var x, y := 0, 0;
    ghost var r := START;
    haveDiff, firstDiff, differing, offset, lefts, rights := false, 0, 0, 0, [], [];
    NothingCompared(a, b);
    while true
      invariant x == left.pos <= |a| && y == right.pos <= |b| && !left.failed && !right.failed
      invariant |lefts| == |rights| && Flatten(lefts) == a[..x] && Flatten(rights) == b[..y]
      invariant r == Blocks(lefts, rights) && Holds(r, haveDiff, firstDiff, differing, offset)
      invariant !left.short && !right.short ==> InStep(a, x, b, y) && r == Whole(a[..x], b[..y])
      decreases |a| - x + |b| - y
    {
      var leftGot := left.Read(leftBuf, READ_SIZE);
      ghost var c := if leftGot >= 0 then leftBuf[..leftGot] else [];
      var rightGot := right.Read(rightBuf, READ_SIZE);
      if leftGot < 0 || rightGot < 0 {
        ok := false;
        return;
      }
      ghost var d := rightBuf[..rightGot];
      if leftGot == 0 && rightGot == 0 { break; }
      assert leftBuf[..leftGot] == c;
      haveDiff, firstDiff, differing, offset :=
        CompareBlocks(leftBuf, leftGot, rightBuf, rightGot, haveDiff, firstDiff, differing, offset, r);
      TakeBlocks(lefts, rights, c, d, a, x, left.pos, b, y, right.pos);
      if !left.short && !right.short { StepIsWhole(a, x, left.pos, b, y, right.pos); }
      lefts, rights, r := lefts + [c], rights + [d], Step(r, c, d);
      x, y := left.pos, right.pos;
    }
    ok := true;
    assert a[..|a|] == a && b[..|b|] == b;
  }

  lemma NothingCompared(a: seq<byte>, b: seq<byte>)
    ensures Blocks([], []) == Whole(a[..0], b[..0]) == START && Holds(START, false, 0, 0, 0)
    ensures Flatten<byte>([]) == a[..0] == b[..0]
  {
    assert a[..0] == [] && b[..0] == [];
  }

  lemma NoStep(r: Report, a: seq<byte>, b: seq<byte>)
    ensures Step(r, a[..0], b[..0]) == r
  {
    assert a[..0] == [] && b[..0] == [];
  }

  lemma TakeBlocks(lefts: seq<seq<byte>>, rights: seq<seq<byte>>, c: seq<byte>, d: seq<byte>,
                   a: seq<byte>, x: nat, x': nat, b: seq<byte>, y: nat, y': nat)
    requires |lefts| == |rights| && x <= x' <= |a| && y <= y' <= |b|
    requires Flatten(lefts) == a[..x] && Flatten(rights) == b[..y] && c == a[x..x'] && d == b[y..y']
    ensures Flatten(lefts + [c]) == a[..x'] && Flatten(rights + [d]) == b[..y']
    ensures Blocks(lefts + [c], rights + [d]) == Step(Blocks(lefts, rights), c, d)
  {
    FlattenSnoc(lefts, c);
    FlattenSnoc(rights, d);
    assert a[..x'] == a[..x] + c && b[..y'] == b[..y] + d;
    assert (lefts + [c])[..|lefts|] == lefts && (rights + [d])[..|rights|] == rights;
  }

  // --------------------------------------------------------------- the report

  function IdenticalLabel(): seq<byte> { "Result=IDENTICAL\nBytesCompared=" }
  function FirstLabel(): seq<byte> { "Result=DIFFERENT\nFirstDifference=" }
  function DifferingLabel(): seq<byte> { "\nDifferingBytes=" }
  function ComparedLabel(): seq<byte> { "\nBytesCompared=" }

  ghost function ReportText(r: Report): seq<byte> {
    (if !r.differ then IdenticalLabel()
     else
       FirstLabel() + Decimal(Wrap(r.first)) + (DifferingLabel() + Decimal(Wrap(r.differing))) + ComparedLabel())
    + Decimal(Wrap(r.compared)) + ['\n']
  }

  /** What is printed for two files that were read completely: IDENTICAL for equal files, otherwise the least position
      at which they differ and the number of positions at which they do; and the length of the longer one. */
  lemma ReportReadsBack(a: seq<byte>, b: seq<byte>) returns (first: seq<byte>, differing: seq<byte>, compared: seq<byte>)
    ensures ReportText(Whole(a, b)) ==
      (if a == b then "Result=IDENTICAL\nBytesCompared=" + compared + "\n"
       else "Result=DIFFERENT\nFirstDifference=" + first + "\nDifferingBytes=" + differing
            + "\nBytesCompared=" + compared + "\n")
    ensures IsDecimal(compared, (if |a| >= |b| then |a| else |b|) % 0x1_0000_0000)
    ensures a != b ==> IsDecimal(first, FirstDifference(a, b) % 0x1_0000_0000)
    ensures IsDecimal(differing, Distance(a, b) % 0x1_0000_0000)
  {
    hide Decimal, IsDecimal, FirstDifference, Distance;
    var r := Whole(a, b);
    first, differing, compared := Decimal(Wrap(r.first)), Decimal(Wrap(r.differing)), Decimal(Wrap(r.compared));
    DecimalIs(Wrap(r.first));
    DecimalIs(Wrap(r.differing));
    DecimalIs(Wrap(r.compared));
    ReportReads(r);
  }

  lemma ReportReads(r: Report)
    ensures !r.differ ==> ReportText(r) == "Result=IDENTICAL\nBytesCompared=" + Decimal(Wrap(r.compared)) + "\n"
    ensures r.differ ==>
      (ReportText(r)
       == "Result=DIFFERENT\nFirstDifference=" + Decimal(Wrap(r.first)) + "\nDifferingBytes=" + Decimal(Wrap(r.differing))
          + "\nBytesCompared=" + Decimal(Wrap(r.compared)) + "\n")
  {
    hide Decimal, Wrap, IdenticalLabel, FirstLabel, DifferingLabel, ComparedLabel;
    Labels();
  }

  lemma Labels()
    ensures IdenticalLabel() == "Result=IDENTICAL\nBytesCompared="
    ensures FirstLabel() == "Result=DIFFERENT\nFirstDifference="
    ensures DifferingLabel() == "\nDifferingBytes=" && ComparedLabel() == "\nBytesCompared="
  {
  }

  method PrintReport(out: Sink, haveDiff: bool, firstDiff: ULONG, differing: ULONG, offset: ULONG, ghost r: Report)
    requires Holds(r, haveDiff, firstDiff, differing, offset)
    modifies out
    ensures out.Appended(old(out.written), old(out.failed), ReportText(r))
  {
    hide Decimal, IdenticalLabel, FirstLabel, DifferingLabel, ComparedLabel, Wrap;
    if !haveDiff {
      out.Puts(IdenticalLabel());
    } else {
      out.Puts(FirstLabel());
      PutU32(out, firstDiff);
      PutField(out, DifferingLabel(), differing);
      out.Puts(ComparedLabel());
    }
    PutU32(out, offset);
    out.Puts(['\n']);
  }

  /** SnapDiff after both files are open; `lefts` and `rights` are the blocks the reads delivered. */
  method Run(left: InFile, right: InFile, out: Sink)
    returns (code: int, ghost r: Report, ghost lefts: seq<seq<byte>>, ghost rights: seq<seq<byte>>)
    requires left != right && left.pos == 0 && right.pos == 0
    requires !left.failed && !right.failed && !left.short && !right.short
    modifies left, right, out
    ensures code == 0 ==> left.contents == right.contents
    ensures code == if left.failed || right.failed || r.differ then 5 else 0
    ensures !left.failed && !right.failed ==>
      && |lefts| == |rights| && Flatten(lefts) == left.contents && Flatten(rights) == right.contents
      && r == Blocks(lefts, rights)
      && out.Appended(old(out.written), old(out.failed), ReportText(r))
    ensures !left.failed && !right.failed && !left.short && !right.short ==> r == Whole(left.contents, right.contents)
    ensures left.failed || right.failed ==> out.Appended(old(out.written), old(out.failed), "Read error\n")
  {
    var ok, haveDiff, firstDiff, differing, offset;
    ok, haveDiff, firstDiff, differing, offset, lefts, rights := Compare(left, right);
    r := START;
    if !ok {
      out.Puts("Read error\n");
      return 5, r, lefts, rights;
    }
    r := Blocks(lefts, rights);
    hide Whole, ReportText, Blocks;
    if !haveDiff { IdenticalIsSound(lefts, rights); }
    PrintReport(out, haveDiff, firstDiff, differing, offset, r);
    code := if haveDiff then 5 else 0;
  }
}
