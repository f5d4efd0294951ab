/** Tree: lists a directory tree; unlike DU and Find it has no entry limit and does not ask why a
    listing stopped. */
module TreeTool {
  import opened Bytes
  import opened Numbers
  import opened Streams
  import opened Trees
  import opened Volumes

  /** One printed line: an entry, indented by its depth. */
  datatype Row = Row(depth: nat, dir: bool, name: CString)

  datatype Tally = Tally(files: nat, dirs: nat, errors: nat, rows: seq<Row>)
  {
    function Plus(t: Tally): Tally {
      Tally(files + t.files, dirs + t.dirs, errors + t.errors, rows + t.rows)
    }
  }

  const NOTHING := Tally(0, 0, 0, [])
  const ERROR := Tally(0, 0, 1, [])
  const ONE_FILE := Tally(1, 0, 0, [])
  const ONE_DIR := Tally(0, 1, 0, [])

  function RowTally(row: Row): Tally {
    Tally(0, 0, 0, [row])
  }

  // ------------------------------------------------------- runs that come to an end

  ghost predicate StopsAt(v: Volume, p: CString, n: nat) {
    v.list(p, n).Stop? && forall k: nat :: k < n ==> v.list(p, k).Next?
  }

  ghost predicate Stops(v: Volume, p: CString) {
    exists n: nat :: StopsAt(v, p, n)
  }

  /** How many entries a listing delivers before it stops. */
  ghost function Extent(v: Volume, p: CString): (n: nat)
    requires Stops(v, p)
    ensures StopsAt(v, p, n)
  {
    var n: nat :| StopsAt(v, p, n);
    n
  }

  /** scan_dir comes to an end: each listing it reads stops somewhere.  Nothing in the program bounds a
      listing; the depth of the recursion is bounded by its limit. */
  ghost predicate Ends(v: Volume, p: CString, depth: nat)
    requires depth <= MAX_DEPTH + 1
    decreases MAX_DEPTH + 1 - depth, 2
  {
    depth <= MAX_DEPTH && v.locks(p) && v.examine(p).Some? ==> ListingEnds(v, p, depth)
  }

  ghost predicate ListingEnds(v: Volume, p: CString, depth: nat)
    requires depth <= MAX_DEPTH
    decreases MAX_DEPTH + 1 - depth, 1
  {
    Stops(v, p) && forall i: nat :: i < Extent(v, p) ==> EntryEnds(v, p, depth, v.list(p, i))
  }

  ghost predicate EntryEnds(v: Volume, p: CString, depth: nat, l: Listing)
    requires depth <= MAX_DEPTH
    decreases MAX_DEPTH + 1 - depth, 0
  {
    l.Next? && !IsFile(l.info) && Fits(JoinCut(p, l.name)) && depth < MAX_DEPTH ==> Ends(v, JoinCut(p, l.name), depth + 1)
  }

  // ---------------------------------------------------------------- the scan

  /** scan_dir at a depth. */
  ghost function Scan(v: Volume, p: CString, depth: nat): Tally
    requires depth <= MAX_DEPTH + 1 && Ends(v, p, depth)
    decreases MAX_DEPTH + 1 - depth, 1, 0
  {
    if depth > MAX_DEPTH || !v.locks(p) || v.examine(p).None? then ERROR
    else ScanFrom(v, p, depth, 0)
  }

  /** The listing loop once i entries have been taken. */
  ghost function ScanFrom(v: Volume, p: CString, depth: nat, i: nat): Tally
    requires depth <= MAX_DEPTH && ListingEnds(v, p, depth) && i <= Extent(v, p)
    decreases MAX_DEPTH + 1 - depth, 0, Extent(v, p) - i
  {
    if v.list(p, i).Stop? then NOTHING
    else EntryTally(v, p, depth, v.list(p, i)).Plus(ScanFrom(v, p, depth, i + 1))
  }

  /** One entry of a listing: it is printed before anything else. */
  ghost function EntryTally(v: Volume, p: CString, depth: nat, l: Listing): Tally
    requires depth <= MAX_DEPTH && l.Next? && EntryEnds(v, p, depth, l)
    decreases MAX_DEPTH + 1 - depth, 0, 0
  {
    var q := JoinCut(p, l.name);
    RowTally(Row(depth, !IsFile(l.info), l.name)).Plus(
      if !Fits(q) then ERROR
      else if IsFile(l.info) then ONE_FILE
      else ONE_DIR.Plus(if depth == MAX_DEPTH then ERROR else Scan(v, q, depth + 1)))
  }

  lemma UnfoldScan(v: Volume, p: CString, depth: nat)
    requires depth <= MAX_DEPTH + 1 && Ends(v, p, depth)
    ensures depth > MAX_DEPTH || !v.locks(p) || v.examine(p).None? ==> Scan(v, p, depth) == ERROR
    ensures depth <= MAX_DEPTH && v.locks(p) && v.examine(p).Some? ==>
      ListingEnds(v, p, depth) && Scan(v, p, depth) == ScanFrom(v, p, depth, 0)
  {
    hide ListingEnds, ScanFrom;
  }

  lemma Unfold(v: Volume, p: CString, depth: nat, i: nat)
    requires depth <= MAX_DEPTH && ListingEnds(v, p, depth) && i <= Extent(v, p)
    ensures v.list(p, i).Stop? <==> i == Extent(v, p)
    ensures v.list(p, i).Stop? ==> ScanFrom(v, p, depth, i) == NOTHING
    ensures v.list(p, i).Next? ==>
      && EntryEnds(v, p, depth, v.list(p, i))
      && ScanFrom(v, p, depth, i) == EntryTally(v, p, depth, v.list(p, i)).Plus(ScanFrom(v, p, depth, i + 1))
  {
    hide EntryEnds, EntryTally;
  }

  lemma UnfoldEntry(v: Volume, p: CString, depth: nat, l: Listing)
    requires depth <= MAX_DEPTH && l.Next? && EntryEnds(v, p, depth, l)
    ensures var q := JoinCut(p, l.name);
            && (Fits(q) && !IsFile(l.info) && depth < MAX_DEPTH ==> Ends(v, q, depth + 1))
            && EntryTally(v, p, depth, l) == RowTally(Row(depth, !IsFile(l.info), l.name)).Plus(
                 if !Fits(q) then ERROR
                 else if IsFile(l.info) then ONE_FILE
                 else ONE_DIR.Plus(if depth == MAX_DEPTH then ERROR else Scan(v, q, depth + 1)))
  {
    hide Ends, Scan, Fits, JoinCut;
  }

  lemma PlusAssoc(a: Tally, b: Tally, c: Tally)
    ensures a.Plus(b).Plus(c) == a.Plus(b.Plus(c))
    ensures a.Plus(NOTHING) == a == NOTHING.Plus(a)
  {
  }

  // ------------------------------------------------------------- the printout

  ghost function Indent(depth: nat): seq<byte> {
    if depth == 0 then [] else Indent(depth - 1) + [' ', ' ']
  }

  function Mark(dir: bool): seq<byte> {
    if dir then ['[', 'D', ']', ' '] else [' ', ' ', ' ', ' ']
  }

  ghost function RowText(row: Row): seq<byte> {
    Indent(row.depth) + Mark(row.dir) + row.name + ['\n']
  }

  ghost function Printed(rows: seq<Row>): seq<byte> {
    if rows == [] then [] else Printed(rows[..|rows| - 1]) + RowText(rows[|rows| - 1])
  }

  lemma PrintedSnoc(rows: seq<Row>, row: Row)
    ensures Printed(rows + [row]) == Printed(rows) + RowText(row)
  {
    hide RowText;
    assert (rows + [row])[..|rows|] == rows;
  }

  function DirsLabel(): seq<byte> { "\nDirs: " }
  function FilesLabel(): seq<byte> { "\nFiles: " }
  function ErrorsLabel(): seq<byte> { "\nErrors: " }

  ghost function Counters(t: Tally): seq<byte> {
    (DirsLabel() + Decimal(Wrap(t.dirs))) + (FilesLabel() + Decimal(Wrap(t.files)))
    + (ErrorsLabel() + Decimal(Wrap(t.errors))) + ['\n']
  }

  ghost function Output(t: Tally): seq<byte> {
    Printed(t.rows) + Counters(t)
  }

  lemma {:induction false} IndentIs(depth: nat)
    ensures |Indent(depth)| == 2 * depth && forall k :: 0 <= k < 2 * depth ==> Indent(depth)[k] == ' '
  {
    if depth > 0 { IndentIs(depth - 1); }
  }

  /** A printed line: two blanks for each level, the mark of a directory or four blanks, the name, a newline. */
  lemma RowReadsBack(row: Row)
    ensures var t, n := RowText(row), 2 * row.depth;
      && |t| == n + 4 + |row.name| + 1
      && (forall k :: 0 <= k < n ==> t[k] == ' ')
      && t[n..n + 4] == (if row.dir then "[D] " else "    ")
      && t[n + 4..] == row.name + ['\n']
  {
    hide Indent;
    IndentIs(row.depth);
    var t, n := RowText(row), 2 * row.depth;
    assert Mark(row.dir) == if row.dir then "[D] " else "    ";
    assert t == Indent(row.depth) + (Mark(row.dir) + (row.name + ['\n']));
  }

  lemma {:induction false} PrintedRows(rows: seq<Row>) returns (pieces: seq<seq<byte>>)
    ensures Printed(rows) == Flatten(pieces) && |pieces| == |rows|
    ensures forall k :: 0 <= k < |rows| ==> pieces[k] == RowText(rows[k])
  {
    hide RowText;
    if rows == [] {
      pieces := [];
    } else {
      var n := |rows| - 1;
      pieces := PrintedRows(rows[..n]);
      FlattenSnoc(pieces, RowText(rows[n]));
      pieces := pieces + [RowText(rows[n])];
    }
  }

  /** The output of any run: one line for each row, in order, then the numbers of directories, files and errors,
      each modulo 2^32. */
  lemma OutputReadsBack(t: Tally)
    returns (pieces: seq<seq<byte>>, dirs: seq<byte>, files: seq<byte>, errors: seq<byte>)
    ensures Output(t) == Flatten<byte>(pieces) + ("\nDirs: " + dirs + "\nFiles: " + files + "\nErrors: " + errors + "\n")
    ensures |pieces| == |t.rows| && forall k :: 0 <= k < |pieces| ==>
      var row, n := t.rows[k], 2 * t.rows[k].depth;
      && |pieces[k]| == n + 4 + |row.name| + 1
      && (forall j :: 0 <= j < n ==> pieces[k][j] == ' ')
      && pieces[k][n..n + 4] == (if row.dir then "[D] " else "    ")
      && pieces[k][n + 4..] == row.name + ['\n']
    ensures IsDecimal(dirs, t.dirs % 0x1_0000_0000) && IsDecimal(files, t.files % 0x1_0000_0000)
    ensures IsDecimal(errors, t.errors % 0x1_0000_0000)
  {
    hide Decimal, Printed, IsDecimal, RowText, Counters;
    pieces := PrintedRows(t.rows);
    forall k | 0 <= k < |t.rows| { RowReadsBack(t.rows[k]); }
    dirs, files, errors := Decimal(Wrap(t.dirs)), Decimal(Wrap(t.files)), Decimal(Wrap(t.errors));
    DecimalIs(Wrap(t.dirs));
    DecimalIs(Wrap(t.files));
    DecimalIs(Wrap(t.errors));
    CountersRead(t);
    assert Output(t) == Flatten(pieces) + Counters(t);
  }

  lemma CountersRead(t: Tally)
    ensures Counters(t) == "\nDirs: " + Decimal(Wrap(t.dirs)) + "\nFiles: " + Decimal(Wrap(t.files))
                           + "\nErrors: " + Decimal(Wrap(t.errors)) + "\n"
  {
    hide Decimal, Wrap;
    assert DirsLabel() == "\nDirs: " && FilesLabel() == "\nFiles: " && ErrorsLabel() == "\nErrors: ";
  }

  /** print_indent. */
  method PrintIndent(depth: nat, out: Sink)
    modifies out
    ensures out.Appended(old(out.written), old(out.failed), Indent(depth))
  {
    ghost var before, failed := out.written, out.failed;
    var i := 0;
    while i < depth
      invariant 0 <= i <= depth && out.Appended(before, failed, Indent(i))
    {
      out.PutsMore([' ', ' '], before, failed, Indent(i));
      i := i + 1;
    }
  }

  /** The line of one entry. */
  method PrintRow(row: Row, out: Sink)
    modifies out
    ensures out.Appended(old(out.written), old(out.failed), RowText(row))
  {
    hide Indent, Mark;
    PrintIndent(row.depth, out);
    out.Puts(Mark(row.dir));
    out.Puts(row.name);
    out.Puts(['\n']);
  }

  // -------------------------------------------------------------- the program

  class TreeList {
    const dos: Dos
    const slots: Slots
    const out: Sink
    var dirCount: ULONG
    var fileCount: ULONG
    var errorCount: ULONG
    ghost var sum: Tally            // the printed lines, and the counters without wrap-around
    ghost const before: seq<byte>   // the output before the listing
    ghost const failedBefore: bool

    constructor (dos: Dos, slots: Slots, out: Sink)
      requires slots.Valid() && dos.Valid()
      ensures this.dos == dos && this.slots == slots && this.out == out && Valid() && sum == NOTHING
      ensures before == out.written && failedBefore == out.failed
    {
      this.dos, this.slots, this.out := dos, slots, out;
      dirCount, fileCount, errorCount, sum := 0, 0, 0, NOTHING;
      before, failedBefore := out.written, out.failed;
    }

    ghost predicate Valid()
      reads this, dos, out
    {
      && slots.Valid() && dos.Valid()
      && out.Appended(before, failedBefore, Printed(sum.rows))
      && fileCount == Wrap(sum.files) && dirCount == Wrap(sum.dirs) && errorCount == Wrap(sum.errors)
    }

    method CountError()
      requires Valid()
      modifies `errorCount, `sum
      ensures Valid() && sum == old(sum).Plus(ERROR)
    {
      WrapAdd(sum.errors, 1);
      errorCount := Wrap(errorCount + 1);
      assert sum.rows + [] == sum.rows;
      sum := sum.Plus(ERROR);
    }

    method CountFile()
      requires Valid()
      modifies `fileCount, `sum
      ensures Valid() && sum == old(sum).Plus(ONE_FILE)
    {
      WrapAdd(sum.files, 1);
      fileCount := Wrap(fileCount + 1);
      assert sum.rows + [] == sum.rows;
      sum := sum.Plus(ONE_FILE);
    }

    method CountDir()
      requires Valid()
      modifies `dirCount, `sum
      ensures Valid() && sum == old(sum).Plus(ONE_DIR)
    {
      WrapAdd(sum.dirs, 1);
      dirCount := Wrap(dirCount + 1);
      assert sum.rows + [] == sum.rows;
      sum := sum.Plus(ONE_DIR);
    }

    method Show(row: Row)
      requires Valid()
      modifies out, `sum
      ensures Valid() && sum == old(sum).Plus(RowTally(row))
    {
      hide RowText, Printed, Wrap;
      PrintedSnoc(sum.rows, row);
      Assoc(before, Printed(sum.rows), RowText(row));
      PrintRow(row, out);
      sum := sum.Plus(RowTally(row));
    }

    /** scan_dir. */
    method ScanDir(path: array<byte>, ghost p: CString, depth: nat)
      requires Valid() && dos.Steady() && depth <= MAX_DEPTH + 1 && Ends(dos.volume, p, depth)
      requires Holds(path, p) && path !in slots.From(depth)
      modifies this, dos, out, slots.From(depth)
      ensures Valid() && sum == old(sum).Plus(Scan(dos.volume, p, depth))
      ensures dos.held == old(dos.held)
      ensures dos.peak <= PeakBound(old(dos.peak), |old(dos.held)|, depth)
      decreases MAX_DEPTH + 1 - depth, 4
    {
      hide Ends, Scan, ScanFrom, Printed, Tally.Plus, Dos.Steady;
      UnfoldScan(dos.volume, p, depth);
      if depth > MAX_DEPTH {
        CountError();
        return;
      }
      var lock := dos.Lock(path, p);
      if lock.NoLock? {
        CountError();
        return;
      }
      AddRemove(old(dos.held), lock.id);
      ScanLocked(path, p, depth, lock);
      dos.UnLock(lock);
    }

    /** scan_dir between Lock and UnLock. */
    method ScanLocked(path: array<byte>, ghost p: CString, depth: nat, lock: FileLock)
      requires Valid() && dos.Steady() && depth <= MAX_DEPTH && Ends(dos.volume, p, depth)
      requires Holds(path, p) && path !in slots.From(depth)
      requires lock.FileLock? && lock.path == p && lock.id in dos.held && dos.volume.locks(p)
      modifies this, dos, out, slots.From(depth)
      ensures Valid() && sum == old(sum).Plus(Scan(dos.volume, p, depth))
      ensures dos.held == old(dos.held)
      ensures dos.peak <= PeakBound(old(dos.peak), |old(dos.held)|, depth + 1)
      decreases MAX_DEPTH + 1 - depth, 3
    {
      hide Ends, ListingEnds, Scan, ScanFrom, Printed, Tally.Plus, Dos.Steady;
      slots.Layers(depth);
      UnfoldScan(dos.volume, p, depth);
      var ok := dos.Examine(lock, slots.fibs[depth]);
      if !ok {
        CountError();
        return;
      }
      ScanEntries(path, p, depth, lock);
    }

    /** The body of the listing loop, for the entry just read into the block. */
    method ScanEntry(path: array<byte>, ghost p: CString, depth: nat, ghost l: Listing)
      requires Valid() && dos.Steady() && depth <= MAX_DEPTH && l.Next? && EntryEnds(dos.volume, p, depth, l)
      requires slots.fibs[depth].name == l.name && slots.fibs[depth].info == l.info
      requires Holds(path, p) && path !in slots.From(depth)
      modifies this, dos, out, slots.paths[depth], slots.From(depth + 1)
      ensures Valid() && dos.held == old(dos.held)
      ensures sum == old(sum).Plus(EntryTally(dos.volume, p, depth, l))
      ensures dos.peak <= PeakBound(old(dos.peak), |old(dos.held)|, depth + 1)
      decreases MAX_DEPTH + 1 - depth, 0
    {
      hide Ends, EntryEnds, Scan, EntryTally, Printed, JoinCut, Fits, Wrap, Tally.Plus, RowTally, Dos.Steady;
      slots.Layers(depth);
      UnfoldEntry(dos.volume, p, depth, l);
      var fib := slots.fibs[depth];
      var isDir, name := fib.info.entryType >= 0, fib.name;
      var row := Row(depth, isDir, name);
      Show(row);
      ScanShown(path, p, depth, name, isDir);
      PlusAssoc(old(sum), RowTally(row), ShownTally(dos.volume, p, depth, name, isDir));
    }

    /** The rest of the loop body, after the entry has been printed. */
    method ScanShown(path: array<byte>, ghost p: CString, depth: nat, name: CString, isDir: bool)
      requires Valid() && dos.Steady() && depth <= MAX_DEPTH
      requires isDir && Fits(JoinCut(p, name)) && depth < MAX_DEPTH ==> Ends(dos.volume, JoinCut(p, name), depth + 1)
      requires Holds(path, p) && path !in slots.From(depth)
      modifies this, dos, out, slots.paths[depth], slots.From(depth + 1)
      ensures Valid() && dos.held == old(dos.held)
      ensures sum == old(sum).Plus(ShownTally(dos.volume, p, depth, name, isDir))
      ensures dos.peak <= PeakBound(old(dos.peak), |old(dos.held)|, depth + 1)
      decreases MAX_DEPTH + 1 - depth, 0, 0
    {
      hide Ends, Scan, Printed, JoinCut, Fits, Wrap, Tally.Plus, Dos.Steady;
      slots.Layers(depth);
      var child := slots.paths[depth];
      var fits := AppendNameUnchecked(child, path, name, p);
      if !fits {
        CountError();
      } else if isDir {
        CountDir();
        if depth == MAX_DEPTH {
          PlusAssoc(old(sum), ONE_DIR, ERROR);
          CountError();
        } else {
          PlusAssoc(old(sum), ONE_DIR, Scan(dos.volume, JoinCut(p, name), depth + 1));
          ScanDir(child, JoinCut(p, name), depth + 1);
        }
      } else {
        CountFile();
      }
    }

    /** One turn of the listing loop. */
    method NextEntry(path: array<byte>, ghost p: CString, depth: nat, lock: FileLock, ghost i: nat) returns (more: bool)
      requires Valid() && dos.Steady() && depth <= MAX_DEPTH && ListingEnds(dos.volume, p, depth)
      requires Holds(path, p) && path !in slots.From(depth)
      requires lock.FileLock? && lock.path == p && lock.id in dos.held
      requires slots.fibs[depth].key == i <= Extent(dos.volume, p)
      modifies this, dos, out, slots.From(depth)
      ensures Valid() && dos.held == old(dos.held)
      ensures dos.peak <= PeakBound(old(dos.peak), |old(dos.held)|, depth + 1)
      ensures more ==> slots.fibs[depth].key == i + 1 <= Extent(dos.volume, p)
      ensures more ==>
        sum.Plus(ScanFrom(dos.volume, p, depth, i + 1)) == old(sum).Plus(ScanFrom(dos.volume, p, depth, i))
      ensures !more ==> sum == old(sum) && ScanFrom(dos.volume, p, depth, i) == NOTHING
      decreases MAX_DEPTH + 1 - depth, 1
    {
      hide ListingEnds, EntryEnds, ScanFrom, EntryTally, Printed, Tally.Plus, Dos.Steady;
      slots.Layers(depth);
      Unfold(dos.volume, p, depth, i);
      more := dos.ExNext(lock, slots.fibs[depth]);
      if more {
        ghost var l := dos.volume.list(p, i);
        PlusAssoc(sum, EntryTally(dos.volume, p, depth, l), ScanFrom(dos.volume, p, depth, i + 1));
        ScanEntry(path, p, depth, l);
      }
    }

    /** The listing loop of scan_dir. */
    method ScanEntries(path: array<byte>, ghost p: CString, depth: nat, lock: FileLock)
      requires Valid() && dos.Steady() && depth <= MAX_DEPTH && ListingEnds(dos.volume, p, depth)
      requires Holds(path, p) && path !in slots.From(depth)
      requires lock.FileLock? && lock.path == p && lock.id in dos.held
      requires slots.fibs[depth].key == 0
      modifies this, dos, out, slots.From(depth)
      ensures Valid() && sum == old(sum).Plus(ScanFrom(dos.volume, p, depth, 0))
      ensures dos.held == old(dos.held)
      ensures dos.peak <= PeakBound(old(dos.peak), |old(dos.held)|, depth + 1)
      decreases MAX_DEPTH + 1 - depth, 2
    {
      hide ListingEnds, ScanFrom, Printed, Tally.Plus, Dos.Steady;
      ghost var i := 0;
      var more := true;
      ghost var goal := sum.Plus(ScanFrom(dos.volume, p, depth, 0));
      while more
        invariant i <= Extent(dos.volume, p) && (more ==> slots.fibs[depth].key == i)
        invariant Valid() && Holds(path, p) && dos.held == old(dos.held)
        invariant dos.peak <= PeakBound(old(dos.peak), |old(dos.held)|, depth + 1)
        invariant if more then sum.Plus(ScanFrom(dos.volume, p, depth, i)) == goal else sum == goal
        decreases more, Extent(dos.volume, p) - i
      {
        ghost var sumBefore := sum;
        more := NextEntry(path, p, depth, lock, i);
        PlusAssoc(sumBefore, NOTHING, NOTHING);
        if more { i := i + 1; }
      }
    }

    /** main, after the arguments: the listing, and the three counters at its end. */
    method Run(path: array<byte>, ghost p: CString) returns (code: int)
      requires Valid() && dos.Steady() && sum == NOTHING && dos.held == {} && dos.peak == 0 && Ends(dos.volume, p, 0)
      requires Holds(path, p) && path !in slots.From(0)
      modifies this, dos, out, slots.From(0)
      ensures sum == Scan(dos.volume, p, 0)
      ensures dos.Valid() && dos.held == {} && dos.peak <= MAX_DEPTH + 1
      ensures out.Appended(before, failedBefore, Output(sum))
      ensures code == if Wrap(sum.errors) != 0 then 5 else 0
    {
      hide Ends, Scan, Printed, Counters, Tally.Plus, Dos.Steady;
      PlusAssoc(Scan(dos.volume, p, 0), NOTHING, NOTHING);
      ScanDir(path, p, 0);
      Assoc(before, Printed(sum.rows), Counters(sum));
      PrintCounters();
      code := if errorCount != 0 then 5 else 0;
    }

    method PrintCounters()
      requires Valid()
      modifies out
      ensures out.Appended(old(out.written), old(out.failed), Counters(sum))
    {
      hide Decimal, Wrap, Printed, DirsLabel, FilesLabel, ErrorsLabel;
      PutField(out, DirsLabel(), dirCount);
      PutField(out, FilesLabel(), fileCount);
      PutField(out, ErrorsLabel(), errorCount);
      out.Puts(['\n']);
    }
  }

  /** What an entry adds besides its line. */
  ghost function ShownTally(v: Volume, p: CString, depth: nat, name: CString, isDir: bool): Tally
    requires depth <= MAX_DEPTH
    requires isDir && Fits(JoinCut(p, name)) && depth < MAX_DEPTH ==> Ends(v, JoinCut(p, name), depth + 1)
  {
    if !Fits(JoinCut(p, name)) then ERROR
    else if !isDir then ONE_FILE
    else ONE_DIR.Plus(if depth == MAX_DEPTH then ERROR else Scan(v, JoinCut(p, name), depth + 1))
  }

  // ---------------------------------------------- what a run says about a tree

  function Width(node: Node): nat {
    if node.Dir? then |node.entries| else 0
  }

  /** A listing of a shown tree stops at the latest after its last entry. */
  lemma ShownListing(v: Volume, p: CString, node: Node, i: nat)
    requires Shows(v, p, node) && i <= Width(node)
    ensures i == Width(node) ==> v.list(p, i).Stop?
    ensures v.list(p, i).Next? ==>
      && node.Dir? && i < |node.entries| && v.list(p, i).name == node.entries[i].name
      && Describes(v.list(p, i).info, node.entries[i].node)
      && Shows(v, Join(p, node.entries[i].name), node.entries[i].node)
  {
    if node.Dir? && i < |node.entries| { ShownEntry(v, p, node, i); }
  }

  lemma {:induction false} StopExists(v: Volume, p: CString, node: Node, i: nat)
    requires Shows(v, p, node) && i <= Width(node)
    requires forall k: nat :: k < i ==> v.list(p, k).Next?
    ensures exists n: nat :: StopsAt(v, p, n)
    decreases Width(node) - i
  {
    hide Shows;
    ShownListing(v, p, node, i);
    if v.list(p, i).Next? {
      StopExists(v, p, node, i + 1);
    } else {
      assert StopsAt(v, p, i);
    }
  }

  lemma ExtentShown(v: Volume, p: CString, node: Node)
    requires Shows(v, p, node)
    ensures Stops(v, p) && Extent(v, p) <= Width(node)
  {
    hide Shows, Width;
    StopExists(v, p, node, 0);
    ShownListing(v, p, node, Width(node));
    assert StopsAt(v, p, Extent(v, p));
  }

  /** Tree comes to an end on every volume that shows a finite tree. */
  lemma {:induction false} ShownEnds(v: Volume, p: CString, node: Node, depth: nat)
    requires Shows(v, p, node) && depth <= MAX_DEPTH + 1
    ensures Ends(v, p, depth)
    ensures depth <= MAX_DEPTH ==> ListingEnds(v, p, depth)
    decreases node
  {
    hide Shows, Fits, Join, JoinCut, Extent;
    if depth <= MAX_DEPTH {
      ExtentShown(v, p, node);
      forall i: nat | i < Extent(v, p)
        ensures EntryEnds(v, p, depth, v.list(p, i))
      {
        ShownListing(v, p, node, i);
        assert v.list(p, i).Next?;
        var e := node.entries[i];
        VariantsAgree(p, e.name);
        ShownEnds(v, Join(p, e.name), e.node, depth + 1);
      }
    }
  }

  /** The lines of some visited objects. */
  ghost function Rows(visits: seq<Visit>): seq<Row> {
    if visits == [] then [] else [RowOf(visits[0])] + Rows(visits[1..])
  }

  ghost function RowOf(w: Visit): Row {
    Row(w.depth, w.node.Dir?, w.name)
  }

  lemma RowsCons(w: Visit, rest: seq<Visit>)
    ensures Rows([w] + rest) == [RowOf(w)] + Rows(rest)
  {
    hide RowOf;
    assert ([w] + rest)[1..] == rest;
  }

  lemma {:induction false} RowsConcat(a: seq<Visit>, b: seq<Visit>)
    ensures Rows(a + b) == Rows(a) + Rows(b)
    decreases |a|
  {
    hide Rows, RowOf;
    if a == [] {
      NoRows();
      assert a + b == b;
    } else {
      var w, rest := a[0], a[1..];
      RowsConcat(rest, b);
      RowsCons(w, rest);
      RowsCons(w, rest + b);
      assert a == [w] + rest;
      assert a + b == [w] + (rest + b);
    }
  }

  lemma NoRows()
    ensures Rows([]) == []
  {
  }

  lemma RowsStep(node: Node, p: CString, depth: nat, i: nat)
    requires node.Dir? && i < |node.entries|
    ensures var e := node.entries[i]; var q := Join(p, e.name); var w := Visit(q, e.name, e.node, depth);
            Rows(Below(node, p, depth, i))
            == [RowOf(w)] + Rows(Walk(e.node, q, depth + 1)) + Rows(Below(node, p, depth, i + 1))
  {
    hide Rows, RowOf, Walk, Below;
    var e := node.entries[i];
    var q := Join(p, e.name);
    var w := Visit(q, e.name, e.node, depth);
    BelowStep(node, p, depth, i);
    RowsConcat([w] + Walk(e.node, q, depth + 1), Below(node, p, depth, i + 1));
    RowsCons(w, Walk(e.node, q, depth + 1));
  }

  /** A listing that delivers every entry of a directory from i on; how it ends is not looked at. */
  ghost predicate Listed(v: Volume, p: CString, node: Node, i: nat) {
    node.Dir? ==> forall k :: i <= k < |node.entries| ==> v.list(p, k).Next?
  }

  ghost predicate AllListed(v: Volume, visits: seq<Visit>) {
    forall w :: w in visits ==> Listed(v, w.path, w.node, 0)
  }

  ghost predicate Opens(v: Volume, p: CString, node: Node) {
    v.locks(p) && v.examine(p).Some? && Listed(v, p, node, 0)
  }

  ghost predicate Handled(v: Volume, w: Visit) {
    Fits(w.path) && (w.node.Dir? ==> w.depth < MAX_DEPTH && Opens(v, w.path, w.node))
  }

  ghost predicate AllHandled(v: Volume, visits: seq<Visit>) {
    forall w :: w in visits ==> Handled(v, w)
  }

  lemma HandledStep(v: Volume, node: Node, p: CString, depth: nat, i: nat)
    requires node.Dir? && i < |node.entries|
    ensures var e := node.entries[i]; var q := Join(p, e.name); var w := Visit(q, e.name, e.node, depth);
            var inner, rest := Walk(e.node, q, depth + 1), Below(node, p, depth, i + 1);
            && (AllHandled(v, Below(node, p, depth, i))
                <==> Handled(v, w) && AllHandled(v, inner) && AllHandled(v, rest))
            && (AllListed(v, Below(node, p, depth, i))
                <==> Listed(v, q, e.node, 0) && AllListed(v, inner) && AllListed(v, rest))
  {
    hide Handled, Listed, Below, Walk;
    BelowMembers(node, p, depth, i);
  }

  /** What a part of a run is measured against: the true totals and lines of that part of the tree, whether
      everything there can be handled, whether its listings are complete, and the most errors it can meet. */
  datatype Goal = Goal(total: Total, rows: seq<Row>, clean: bool, complete: bool, most: nat)
  {
    function Plus(g: Goal): Goal {
      Goal(total.Plus(g.total), rows + g.rows, clean && g.clean, complete && g.complete, most + g.most)
    }
  }

  ghost function ScanGoal(v: Volume, p: CString, node: Node, depth: nat): Goal {
    var below := Walk(node, p, depth);
    Goal(Sum(below), Rows(below), Opens(v, p, node) && AllHandled(v, below),
         Listed(v, p, node, 0) && AllListed(v, below), 1 + |below|)
  }

  ghost function EntryGoal(v: Volume, p: CString, e: Entry, depth: nat): Goal {
    var w := Visit(Join(p, e.name), e.name, e.node, depth);
    var below := Walk(e.node, w.path, depth + 1);
    Goal(OwnTotal(e.node).Plus(Sum(below)), [RowOf(w)] + Rows(below), Handled(v, w) && AllHandled(v, below),
         Listed(v, w.path, e.node, 0) && AllListed(v, below), 1 + |below|)
  }

  ghost function FromGoal(v: Volume, p: CString, node: Node, depth: nat, i: nat): Goal {
    var below := Below(node, p, depth, i);
    Goal(Sum(below), Rows(below), Listed(v, p, node, i) && AllHandled(v, below),
         Listed(v, p, node, i) && AllListed(v, below), |below|)
  }

  lemma GoalStep(v: Volume, p: CString, node: Node, depth: nat, i: nat)
    requires node.Dir? && i < |node.entries| && v.list(p, i).Next?
    ensures FromGoal(v, p, node, depth, i)
         == EntryGoal(v, p, node.entries[i], depth).Plus(FromGoal(v, p, node, depth, i + 1))
  {
    hide Sum, Rows, RowOf, OwnTotal, Below, Walk, Handled, Listed, AllHandled, AllListed, Total.Plus;
    ListedStep(v, p, node, i);
    SumStep(node, p, depth, i);
    RowsStep(node, p, depth, i);
    HandledStep(v, node, p, depth, i);
    BelowStep(node, p, depth, i);
  }

  lemma ListedStep(v: Volume, p: CString, node: Node, i: nat)
    requires node.Dir? && i < |node.entries| && v.list(p, i).Next?
    ensures Listed(v, p, node, i) <==> Listed(v, p, node, i + 1)
  {
  }

  /** Never more than there is; and a run without errors is exact precisely when everything was handled,
      which is precisely when its listings are complete. */
  ghost predicate Reports(t: Tally, g: Goal) {
    && t.files <= g.total.files && t.dirs <= g.total.dirs && Sublist(t.rows, g.rows)
    && (g.clean <==> t.errors == 0 && t.files == g.total.files && t.dirs == g.total.dirs)
    && (g.clean <==> t.errors == 0 && g.complete)
    && (g.clean ==> t.rows == g.rows)
    && t.errors <= g.most
  }

  lemma ReportsAdd(a: Tally, g: Goal, b: Tally, h: Goal)
    requires Reports(a, g) && Reports(b, h)
    ensures Reports(a.Plus(b), g.Plus(h))
  {
    hide Sublist;
    SublistConcat(a.rows, g.rows, b.rows, h.rows);
  }

  lemma {:induction false} ScanMeaning(v: Volume, p: CString, node: Node, depth: nat)
    requires Shows(v, p, node) && depth <= MAX_DEPTH
    ensures Ends(v, p, depth) && Reports(Scan(v, p, depth), ScanGoal(v, p, node, depth))
    decreases node, 1
  {
    hide *;
    ShownEnds(v, p, node, depth);
    UnfoldScan(v, p, depth);
    if !v.locks(p) || v.examine(p).None? {
      NotOpened(v, p, node, depth);
    } else {
      FromMeaning(v, p, node, depth, 0);
      Opened(v, p, node, depth, ScanFrom(v, p, depth, 0));
    }
  }

  lemma NotOpened(v: Volume, p: CString, node: Node, depth: nat)
    requires !v.locks(p) || v.examine(p).None?
    ensures Reports(ERROR, ScanGoal(v, p, node, depth))
  {
    hide Sum, Rows, Walk, AllHandled, AllListed, Listed;
  }

  lemma Opened(v: Volume, p: CString, node: Node, depth: nat, t: Tally)
    requires v.locks(p) && v.examine(p).Some? && Reports(t, FromGoal(v, p, node, depth, 0))
    ensures Reports(t, ScanGoal(v, p, node, depth))
  {
    hide Sum, Rows, Below, AllHandled, AllListed, Listed, Sublist;
  }

  lemma {:induction false} EntryMeaning(v: Volume, p: CString, e: Entry, depth: nat, l: Listing)
    requires Shows(v, Join(p, e.name), e.node) && depth <= MAX_DEPTH
    requires l.Next? && l.name == e.name && Describes(l.info, e.node) && EntryEnds(v, p, depth, l)
    ensures Reports(EntryTally(v, p, depth, l), EntryGoal(v, p, e, depth))
    decreases e.node, 2
  {
    hide *;
    DescribedKind(l.info, e.node);
    VariantsAgree(p, e.name);
    UnfoldEntry(v, p, depth, l);
    var q := Join(p, e.name);
    if !Fits(q) || (e.node.Dir? && depth == MAX_DEPTH) {
      LostEntry(v, p, e, depth);
    } else if e.node.File? {
      FileEntry(v, p, e, depth);
    } else {
      ScanMeaning(v, q, e.node, depth + 1);
      DirEntry(v, p, e, depth, Scan(v, q, depth + 1));
    }
  }

  lemma DescribedKind(info: Info, node: Node)
    requires Describes(info, node)
    ensures IsFile(info) <==> node.File?
  {
  }

  lemma LostEntry(v: Volume, p: CString, e: Entry, depth: nat)
    requires !Fits(Join(p, e.name)) || (e.node.Dir? && depth == MAX_DEPTH)
    ensures var row := RowTally(Row(depth, e.node.Dir?, e.name));
            && Reports(row.Plus(ERROR), EntryGoal(v, p, e, depth))
            && (e.node.Dir? ==> Reports(row.Plus(ONE_DIR.Plus(ERROR)), EntryGoal(v, p, e, depth)))
  {
    hide Sum, Rows, Walk, AllHandled, AllListed, Opens, Listed, Join, Fits, Sublist, Reports;
    LostReports(Row(depth, e.node.Dir?, e.name), Rows(Walk(e.node, Join(p, e.name), depth + 1)), EntryGoal(v, p, e, depth));
  }

  lemma LostReports(row: Row, rest: seq<Row>, g: Goal)
    requires g.rows == [row] + rest && !g.clean && g.most >= 1
    ensures Reports(RowTally(row).Plus(ERROR), g)
    ensures g.total.dirs >= 1 ==> Reports(RowTally(row).Plus(ONE_DIR.Plus(ERROR)), g)
  {
    hide Sublist;
    FirstRow(row, rest);
  }

  lemma FirstRow(row: Row, rest: seq<Row>)
    ensures Sublist([row] + [], [row] + rest) && Sublist([row] + ([] + []), [row] + rest)
  {
    SublistSelf([row]);
    SublistConcat([row], [row], [], rest);
    assert [row] + [] == [row] + ([] + []);
  }

  lemma FileEntry(v: Volume, p: CString, e: Entry, depth: nat)
    requires Fits(Join(p, e.name)) && e.node.File?
    ensures Reports(RowTally(Row(depth, e.node.Dir?, e.name)).Plus(ONE_FILE), EntryGoal(v, p, e, depth))
  {
    hide Join, Fits, Sublist;
    FirstRow(Row(depth, e.node.Dir?, e.name), []);
    NoneBelow(v, Join(p, e.name), e.node, depth + 1, 0);
    hide Walk, Sum, Rows, Below;
  }

  lemma NoneBelow(v: Volume, p: CString, node: Node, depth: nat, i: nat)
    requires node.File? || i >= |node.entries|
    ensures Below(node, p, depth, i) == [] && Sum([]) == EMPTY && Rows([]) == []
    ensures AllHandled(v, []) && AllListed(v, [])
  {
  }

  lemma DirEntry(v: Volume, p: CString, e: Entry, depth: nat, t: Tally)
    requires depth < MAX_DEPTH && Fits(Join(p, e.name)) && e.node.Dir?
    requires Reports(t, ScanGoal(v, Join(p, e.name), e.node, depth + 1))
    ensures Reports(RowTally(Row(depth, e.node.Dir?, e.name)).Plus(ONE_DIR.Plus(t)), EntryGoal(v, p, e, depth))
  {
    hide Sum, Rows, Walk, AllHandled, AllListed, Opens, Listed, Join, Fits, Sublist;
    var row := Row(depth, e.node.Dir?, e.name);
    var below := Rows(Walk(e.node, Join(p, e.name), depth + 1));
    SublistSelf([row]);
    SublistConcat([row], [row], t.rows, below);
    assert [] + t.rows == t.rows;
  }

  lemma {:induction false} FromMeaning(v: Volume, p: CString, node: Node, depth: nat, i: nat)
    requires Shows(v, p, node) && depth <= MAX_DEPTH && ListingEnds(v, p, depth) && i <= Extent(v, p)
    ensures Reports(ScanFrom(v, p, depth, i), FromGoal(v, p, node, depth, i))
    decreases node, 0, Extent(v, p) - i
  {
    hide *;
    ExtentShown(v, p, node);
    Unfold(v, p, depth, i);
    ShownListing(v, p, node, i);
    if v.list(p, i).Next? {
      var l := v.list(p, i);
      EntryMeaning(v, p, node.entries[i], depth, l);
      FromMeaning(v, p, node, depth, i + 1);
      GoalStep(v, p, node, depth, i);
      ReportsAdd(EntryTally(v, p, depth, l), EntryGoal(v, p, node.entries[i], depth),
                 ScanFrom(v, p, depth, i + 1), FromGoal(v, p, node, depth, i + 1));
    } else {
      EndOfListing(v, p, node, depth, i);
    }
  }

  lemma EndOfListing(v: Volume, p: CString, node: Node, depth: nat, i: nat)
    requires i <= Width(node) && v.list(p, i).Stop?
    ensures Reports(NOTHING, FromGoal(v, p, node, depth, i))
  {
    hide Sum, Rows, Below, AllHandled, AllListed;
    if i < Width(node) {
      SomeBelow(node, p, depth, i);
    } else {
      NoneBelow(v, p, node, depth, i);
    }
  }

  lemma SomeBelow(node: Node, p: CString, depth: nat, i: nat)
    requires node.Dir? && i < |node.entries|
    ensures Sum(Below(node, p, depth, i)).files + Sum(Below(node, p, depth, i)).dirs > 0
  {
    hide Sum, Below, Walk;
    SumStep(node, p, depth, i);
  }

  /** The counters never exceed the tree and the printed lines are among its lines, in order.  A run without
      errors is exact precisely when every listing was complete: the exit code alone does not tell. */
  lemma ExactRuns(v: Volume, p: CString, node: Node)
    requires Shows(v, p, node)
    ensures Ends(v, p, 0)
    ensures var t, below := Scan(v, p, 0), Walk(node, p, 0); var total := Sum(below);
            && t.files <= total.files && t.dirs <= total.dirs && Sublist(t.rows, Rows(below))
            && (t.errors == 0 && t.files == total.files && t.dirs == total.dirs
                <==> Opens(v, p, node) && AllHandled(v, below))
            && (t.errors == 0 ==>
                 (t.files == total.files && t.dirs == total.dirs
                  <==> Listed(v, p, node, 0) && AllListed(v, below)))
            && (Opens(v, p, node) && AllHandled(v, below) ==> t.rows == Rows(below))
            && t.errors <= 1 + |below|
  {
    hide Shows, Ends, Scan, Sum, Rows, Walk, AllHandled, AllListed, Opens, Listed, Sublist;
    ScanMeaning(v, p, node, 0);
  }

  /** The output of a complete listing, in unbounded numbers. */
  ghost function TrueOutput(total: Total, rows: seq<Row>): seq<byte> {
    Printed(rows) + ((DirsLabel() + Decimal(total.dirs)) + (FilesLabel() + Decimal(total.files))
                     + (ErrorsLabel() + Decimal(0)) + ['\n'])
  }

  lemma ExactOutput(t: Tally, total: Total)
    requires t.files == total.files <= MAX_ULONG && t.dirs == total.dirs <= MAX_ULONG && t.errors == 0
    ensures Output(t) == TrueOutput(total, t.rows)
  {
    hide Decimal, Printed, DirsLabel, FilesLabel, ErrorsLabel;
  }

  lemma {:induction false} RowsAre(visits: seq<Visit>)
    ensures |Rows(visits)| == |visits|
    ensures forall k :: 0 <= k < |visits| ==> Rows(visits)[k] == Row(visits[k].depth, visits[k].node.Dir?, visits[k].name)
  {
    if visits != [] { RowsAre(visits[1..]); }
  }

  /** The output of a complete listing: the k-th line shows depth, kind and name of the k-th object of the walk. */
  lemma TrueOutputReadsBack(total: Total, visits: seq<Visit>)
    returns (pieces: seq<seq<byte>>, dirs: seq<byte>, files: seq<byte>)
    requires total.dirs <= MAX_ULONG && total.files <= MAX_ULONG
    ensures TrueOutput(total, Rows(visits)) == Flatten<byte>(pieces) + ("\nDirs: " + dirs + "\nFiles: " + files + "\nErrors: 0\n")
    ensures |pieces| == |visits| && forall k :: 0 <= k < |pieces| ==>
      var w, n := visits[k], 2 * visits[k].depth;
      && |pieces[k]| == n + 4 + |w.name| + 1
      && (forall j :: 0 <= j < n ==> pieces[k][j] == ' ')
      && pieces[k][n..n + 4] == (if w.node.Dir? then "[D] " else "    ")
      && pieces[k][n + 4..] == w.name + ['\n']
    ensures IsDecimal(dirs, total.dirs) && IsDecimal(files, total.files)
  {
    hide Output, TrueOutput, Rows, Flatten, IsDecimal;
    RowsAre(visits);
    var t := Tally(total.files, total.dirs, 0, Rows(visits));
    ExactOutput(t, total);
    var errors;
    pieces, dirs, files, errors := OutputReadsBack(t);
    OnlyZero(errors);
  }

  lemma OnlyZero(text: seq<byte>)
    requires IsDecimal(text, 0)
    ensures text == ['0']
  {
    DecimalIs(0);
    if text[0] != '0' {
      assert text == [text[0]] + text[1..];
      ValueIsPositional(text[0], text[1..], 10);
      PowerPositive(|text| - 1);
    }
  }

  lemma {:induction false} PowerPositive(n: nat)
    ensures Pow10(n) > 0
  {
    if n > 0 { PowerPositive(n - 1); }
  }

  /** With fewer than 2^32 - 1 objects below the root no counter can wrap around.  Then exit code 0, on a
      volume whose listings are complete, means that the whole output is that of the tree. */
  lemma ExitZeroIsExact(v: Volume, p: CString, node: Node)
    requires Shows(v, p, node) && |Walk(node, p, 0)| < MAX_ULONG
    ensures Ends(v, p, 0)
    ensures var t, below := Scan(v, p, 0), Walk(node, p, 0);
            Wrap(t.errors) == 0 && Listed(v, p, node, 0) && AllListed(v, below)
            <==> Opens(v, p, node) && AllHandled(v, below)
    ensures var t, below := Scan(v, p, 0), Walk(node, p, 0);
            Opens(v, p, node) && AllHandled(v, below) ==> Output(t) == TrueOutput(Sum(below), Rows(below))
  {
    hide Shows, Ends, Scan, Sum, Rows, Walk, AllHandled, AllListed, Opens, Listed, Sublist, Output, TrueOutput;
    ExactRuns(v, p, node);
    SumCountsVisits(Walk(node, p, 0));
    if Opens(v, p, node) && AllHandled(v, Walk(node, p, 0)) { ExactOutput(Scan(v, p, 0), Sum(Walk(node, p, 0))); }
  }

  /** A volume on which every listing fails at once. */
  function Unlistable(code: int): Volume {
    Volume((p: CString) => true,
           (p: CString) => Some(if p == "" then Info(2, 0) else Info(-3, 1)),
           (p: CString, i: nat) => Stop(code))
  }

  lemma UnlistableShows(name: Name, code: int)
    requires code != ERROR_NO_MORE_ENTRIES
    ensures Shows(Unlistable(code), "", Dir([Entry(name, File(1))]))
  {
    var e := Entry(name, File(1));
    assert Join("", name) == name;
    assert Shows(Unlistable(code), Join("", name), e.node);
  }

  /** A failing listing loses the rest of a directory without an error: exit code 0 is not enough. */
  lemma FailedListingIsSilent(name: Name, code: int)
    requires code != ERROR_NO_MORE_ENTRIES
    ensures var v, node := Unlistable(code), Dir([Entry(name, File(1))]);
            && Shows(v, "", node) && Ends(v, "", 0)
            && Scan(v, "", 0) == NOTHING
            && Sum(Walk(node, "", 0)).files + Sum(Walk(node, "", 0)).dirs > 0
  {
    hide Shows, Ends, ListingEnds, Scan, ScanFrom, Sum, Below;
    var v, node := Unlistable(code), Dir([Entry(name, File(1))]);
    UnlistableShows(name, code);
    ShownEnds(v, "", node, 0);
    UnfoldScan(v, "", 0);
    Unfold(v, "", 0, 0);
    SomeBelow(node, "", 0, 0);
  }

  // ---------------------------------------------------------- the whole program

  /** Tree from its arguments to its exit code, on a steady DOS on which it comes to an end.  If that shows a tree
      of fewer than 2^32 - 1 objects and lists it completely, exit code 0 means that the tree was printed. */
  method Program(argv: seq<CString>, dos: Dos, out: Sink) returns (code: int)
    requires dos.Valid() && dos.held == {} && dos.peak == 0
    requires dos.Steady() && Ends(dos.volume, PathArgument(argv, 1), 0)
    modifies dos, out
    ensures dos.held == {} && dos.peak <= 17
    ensures code == 0 || code == 5 || code == 10
    ensures code == 10 <==> |argv| > 2
    ensures code == 10 ==> out.written == old(out.written)
    ensures code != 10 ==> var t := Scan(dos.volume, PathArgument(argv, 1), 0);
      out.Appended(old(out.written), old(out.failed), Output(t)) && (code == 5 <==> Wrap(t.errors) != 0)
    ensures forall node :: code != 10 && ShowsSmall(dos.volume, PathArgument(argv, 1), node) ==>
      var v, p := dos.volume, PathArgument(argv, 1); var below := Walk(node, p, 0);
      && (code == 0 && Listed(v, p, node, 0) && AllListed(v, below) <==> Opens(v, p, node) && AllHandled(v, below))
      && (Opens(v, p, node) && AllHandled(v, below) ==>
           out.Appended(old(out.written), old(out.failed), TrueOutput(Sum(below), Rows(below))))
  {
    hide Ends, Scan, Output, TrueOutput, Sum, Rows, Opens, Listed, AllHandled, AllListed, Walk, Wrap, ShowsSmall, Dos.Steady;
    if |argv| > 2 { return 10; }
    var v, p := dos.volume, if |argv| == 2 then argv[1] else [];
    var slots := new Slots();
    var path := NewPath(p);
    var tree := new TreeList(dos, slots, out);
    code := tree.Run(path, p);
    forall node | ShowsSmall(v, p, node)
      ensures var below := Walk(node, p, 0);
        && (code == 0 && Listed(v, p, node, 0) && AllListed(v, below) <==> Opens(v, p, node) && AllHandled(v, below))
        && (Opens(v, p, node) && AllHandled(v, below) ==> Output(Scan(v, p, 0)) == TrueOutput(Sum(below), Rows(below)))
    {
      SmallShown(v, p, node);
      ExitZeroIsExact(v, p, node);
    }
  }
}
