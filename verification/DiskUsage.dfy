/** DU: counts the files, directories and bytes below a path. */
module DiskUsage {
  import opened Bytes
  import opened Numbers
  import opened Streams
  import opened Trees
  import opened Volumes

  /** What a scan adds to the counters, in unbounded numbers. */
  datatype Tally = Tally(files: nat, dirs: nat, errors: nat, bytes: nat)
  {
    function Plus(t: Tally): Tally {
      Tally(files + t.files, dirs + t.dirs, errors + t.errors, bytes + t.bytes)
    }
  }

  const NOTHING := Tally(0, 0, 0, 0)
  const ERROR := Tally(0, 0, 1, 0)

  function FileTally(size: LONG): Tally {
    Tally(1, 0, 0, if size > 0 then size else 0)
  }

  // ------------------------------------------------ the scan, for any volume

  /** scan_dir at a depth. */
  ghost function Scan(v: Volume, p: CString, depth: nat): Tally
    requires depth <= MAX_DEPTH + 1
    decreases MAX_DEPTH + 1 - depth, MAX_ENTRIES + 1
  {
    if depth > MAX_DEPTH || !v.locks(p) || v.examine(p).None? then ERROR
    else if IsFile(v.examine(p).value) then FileTally(v.examine(p).value.size)
    else Tally(0, 1, 0, 0).Plus(ScanFrom(v, p, depth, 0))
  }

  /** The listing loop once i entries have been taken. */
  ghost function ScanFrom(v: Volume, p: CString, depth: nat, i: nat): Tally
    requires depth <= MAX_DEPTH && i <= MAX_ENTRIES
    decreases MAX_DEPTH + 1 - depth, MAX_ENTRIES - i
  {
    if i == MAX_ENTRIES then ERROR
    else match v.list(p, i)
      case Stop(code) => if code == ERROR_NO_MORE_ENTRIES then NOTHING else ERROR
      case Next(name, info) => EntryTally(v, p, depth, name, info).Plus(ScanFrom(v, p, depth, i + 1))
  }

  /** One entry of a listing. */
  ghost function EntryTally(v: Volume, p: CString, depth: nat, name: CString, info: Info): Tally
    requires depth <= MAX_DEPTH
    decreases MAX_DEPTH + 1 - depth, 0
  {
    if !Fits(Join(p, name)) then ERROR
    else if IsFile(info) then FileTally(info.size)
    else if depth < MAX_DEPTH then Scan(v, Join(p, name), depth + 1)
    else ERROR
  }

  lemma UnfoldScan(v: Volume, p: CString, depth: nat)
    requires depth <= MAX_DEPTH + 1
    ensures depth > MAX_DEPTH || !v.locks(p) || v.examine(p).None? ==> Scan(v, p, depth) == ERROR
    ensures depth <= MAX_DEPTH && v.locks(p) && v.examine(p).Some? ==>
      var info := v.examine(p).value;
      Scan(v, p, depth) == if IsFile(info) then FileTally(info.size) else Tally(0, 1, 0, 0).Plus(ScanFrom(v, p, depth, 0))
  {
  }

  lemma Unfold(v: Volume, p: CString, depth: nat, i: nat)
    requires depth <= MAX_DEPTH && i <= MAX_ENTRIES
    ensures i == MAX_ENTRIES ==> ScanFrom(v, p, depth, i) == ERROR
    ensures i < MAX_ENTRIES && v.list(p, i).Stop? ==>
      ScanFrom(v, p, depth, i) == if v.list(p, i).code == ERROR_NO_MORE_ENTRIES then NOTHING else ERROR
    ensures i < MAX_ENTRIES && v.list(p, i).Next? ==>
      ScanFrom(v, p, depth, i)
      == EntryTally(v, p, depth, v.list(p, i).name, v.list(p, i).info).Plus(ScanFrom(v, p, depth, i + 1))
  {
  }

  // -------------------------------------------------------------- the program

  class DU {
    const dos: Dos
    const slots: Slots
    var totalBytes: ULONG
    var fileCount: ULONG
    var dirCount: ULONG
    var errorCount: ULONG
    ghost var sum: Tally  // the counters without wrap-around or saturation

    constructor (dos: Dos, slots: Slots)
      requires slots.Valid() && dos.Valid()
      ensures this.dos == dos && this.slots == slots && Valid() && sum == NOTHING
    {
      this.dos, this.slots := dos, slots;
      totalBytes, fileCount, dirCount, errorCount, sum := 0, 0, 0, 0, NOTHING;
    }

    ghost predicate Valid()
      reads this, dos
    {
      && slots.Valid() && dos.Valid()
      && totalBytes == Min(MAX_ULONG, sum.bytes)
      && fileCount == Wrap(sum.files) && dirCount == Wrap(sum.dirs) && errorCount == Wrap(sum.errors)
    }

    /** add_size: saturates instead of wrapping. */
    method AddSize(size: LONG)
      modifies `totalBytes
      ensures totalBytes == Min(MAX_ULONG, old(totalBytes) + if size > 0 then size else 0)
    {
      if size <= 0 { return; }
      if MAX_ULONG - totalBytes < size {
        totalBytes := MAX_ULONG;
      } else {
        totalBytes := totalBytes + size;
      }
    }

    method CountError()
      requires Valid()
      modifies `errorCount, `sum
      ensures Valid() && sum == old(sum).Plus(ERROR)
    {
      WrapAdd(sum.errors, 1);
      errorCount := Wrap(errorCount + 1);
      sum := sum.Plus(ERROR);
    }

    method CountDir()
      requires Valid()
      modifies `dirCount, `sum
      ensures Valid() && sum == old(sum).Plus(Tally(0, 1, 0, 0))
    {
      WrapAdd(sum.dirs, 1);
      dirCount := Wrap(dirCount + 1);
      sum := sum.Plus(Tally(0, 1, 0, 0));
    }

    method CountFile(size: LONG)
      requires Valid()
      modifies `fileCount, `totalBytes, `sum
      ensures Valid() && sum == old(sum).Plus(FileTally(size))
    {
      WrapAdd(sum.files, 1);
      fileCount := Wrap(fileCount + 1);
      AddSize(size);
      sum := sum.Plus(FileTally(size));
    }

    /** scan_dir: gives back every lock it takes, writes only buffers of its own depth and below, and comes to
        an end, whatever DOS answers at each call.  On a steady DOS it adds exactly the tally of the path. */
    method ScanDir(path: array<byte>, ghost p: CString, depth: nat)
      requires Valid() && depth <= MAX_DEPTH + 1
      requires Holds(path, p) && path !in slots.From(depth)
      modifies this, dos, slots.From(depth)
      ensures Valid()
      ensures dos.Steady() ==> sum == old(sum).Plus(Scan(dos.volume, p, depth))
      ensures dos.held == old(dos.held)
      ensures dos.peak <= PeakBound(old(dos.peak), |old(dos.held)|, depth)
      decreases MAX_DEPTH + 1 - depth, 4
    {
      hide Scan, Min, Wrap, Dos.Steady;
      UnfoldScan(dos.volume, p, depth);
      if depth > MAX_DEPTH {
        CountError();
        return;
      }
      var lock := dos.Lock(path, p);
      if lock.NoLock? {
        CountError();
        return;
      }
      AddRemove(old(dos.held), lock.id);
      ScanLocked(path, p, depth, lock);
      dos.UnLock(lock);
    }

    /** scan_dir between Lock and UnLock. */
    method ScanLocked(path: array<byte>, ghost p: CString, depth: nat, lock: FileLock)
      requires Valid() && depth <= MAX_DEPTH
      requires Holds(path, p) && path !in slots.From(depth)
      requires lock.FileLock? && lock.path == p && lock.id in dos.held
      requires dos.Steady() ==> dos.volume.locks(p)
      modifies this, dos, slots.From(depth)
      ensures Valid()
      ensures dos.Steady() ==> sum == old(sum).Plus(Scan(dos.volume, p, depth))
      ensures dos.held == old(dos.held)
      ensures dos.peak <= PeakBound(old(dos.peak), |old(dos.held)|, depth + 1)
      decreases MAX_DEPTH + 1 - depth, 3
    {
      hide Scan, ScanFrom, Min, Wrap, Dos.Steady;
      slots.Layers(depth);
      UnfoldScan(dos.volume, p, depth);
      var fib := slots.fibs[depth];
      var ok := dos.Examine(lock, fib);
      if !ok {
        CountError();
        return;
      }
      if fib.info.entryType < 0 {
        CountFile(fib.info.size);
        return;
      }
      CountDir();
      ScanEntries(path, p, depth, lock);
    }

    /** The body of the listing loop, for the entry just read into the block. */
    method ScanEntry(path: array<byte>, ghost p: CString, depth: nat)
      requires Valid() && depth <= MAX_DEPTH
      requires Holds(path, p) && path !in slots.From(depth)
      modifies this, dos, slots.paths[depth], slots.From(depth + 1)
      ensures Valid() && dos.held == old(dos.held)
      ensures dos.Steady() ==>
        sum == old(sum).Plus(EntryTally(dos.volume, p, depth, old(slots.fibs[depth].name), old(slots.fibs[depth].info)))
      ensures dos.peak <= PeakBound(old(dos.peak), |old(dos.held)|, depth + 1)
      decreases MAX_DEPTH + 1 - depth, 0
    {
      hide Scan, Join, Fits, Min, Wrap, Dos.Steady;
      slots.Layers(depth);
      var fib, child := slots.fibs[depth], slots.paths[depth];
      var name := fib.name;
      var fits := AppendName(child, path, name, p);
      if !fits {
        CountError();
        return;
      }
      if fib.info.entryType < 0 {
        CountFile(fib.info.size);
      } else if depth < MAX_DEPTH {
        ScanDir(child, Join(p, name), depth + 1);
      } else {
        CountError();
      }
    }

    /** One turn of the listing loop: asks for an entry and, if there is one, handles it. */
    method NextEntry(path: array<byte>, ghost p: CString, depth: nat, lock: FileLock, ghost i: nat) returns (more: bool)
      requires Valid() && depth <= MAX_DEPTH && i < MAX_ENTRIES
      requires Holds(path, p) && path !in slots.From(depth)
      requires lock.FileLock? && lock.path == p && lock.id in dos.held
      requires slots.fibs[depth].key == i
      modifies this, dos, slots.From(depth)
      ensures Valid() && dos.held == old(dos.held)
      ensures dos.peak <= PeakBound(old(dos.peak), |old(dos.held)|, depth + 1)
      ensures more ==> slots.fibs[depth].key == i + 1
      ensures dos.Steady() && more ==>
        sum.Plus(ScanFrom(dos.volume, p, depth, i + 1)) == old(sum).Plus(ScanFrom(dos.volume, p, depth, i))
      ensures !more ==> sum == old(sum)
      ensures dos.Steady() && !more ==>
        ScanFrom(dos.volume, p, depth, i) == if dos.ioErr == ERROR_NO_MORE_ENTRIES then NOTHING else ERROR
      decreases MAX_DEPTH + 1 - depth, 1
    {
      hide ScanFrom, EntryTally, Min, Wrap, Dos.Steady;
      slots.Layers(depth);
      Unfold(dos.volume, p, depth, i);
      more := dos.ExNext(lock, slots.fibs[depth]);
      if more { ScanEntry(path, p, depth); }
    }

    /** The listing loop of scan_dir. */
    method ScanEntries(path: array<byte>, ghost p: CString, depth: nat, lock: FileLock)
      requires Valid() && depth <= MAX_DEPTH
      requires Holds(path, p) && path !in slots.From(depth)
      requires lock.FileLock? && lock.path == p && lock.id in dos.held
      requires slots.fibs[depth].key == 0
      modifies this, dos, slots.From(depth)
      ensures Valid()
      ensures dos.Steady() ==> sum == old(sum).Plus(ScanFrom(dos.volume, p, depth, 0))
      ensures dos.held == old(dos.held)
      ensures dos.peak <= PeakBound(old(dos.peak), |old(dos.held)|, depth + 1)
      decreases MAX_DEPTH + 1 - depth, 2
    {
      hide ScanFrom, Min, Wrap, Dos.Steady;
      var entries, more := 0, true;
      while entries < MAX_ENTRIES && more
        invariant entries <= MAX_ENTRIES && slots.fibs[depth].key == entries
        invariant Valid() && Holds(path, p) && dos.held == old(dos.held)
        invariant dos.peak <= PeakBound(old(dos.peak), |old(dos.held)|, depth + 1)
        invariant dos.Steady() ==>
          sum.Plus(ScanFrom(dos.volume, p, depth, entries)) == old(sum).Plus(ScanFrom(dos.volume, p, depth, 0))
        decreases MAX_ENTRIES - entries
      {
        more := NextEntry(path, p, depth, lock, entries);
        if !more { break; }
        entries := entries + 1;
      }
      Unfold(dos.volume, p, depth, entries);
      if entries >= MAX_ENTRIES {
        CountError();
      } else if dos.ioErr != ERROR_NO_MORE_ENTRIES {
        CountError();
      }
    }

    /** main, after the arguments: prints the totals; exit code 5 when the error counter is not zero. */
    method Run(path: array<byte>, ghost p: CString, out: Sink) returns (code: int)
      requires Valid() && sum == NOTHING && dos.held == {} && dos.peak == 0
      requires Holds(path, p) && path !in slots.From(0)
      modifies this, dos, slots.From(0), out
      ensures Valid() && (dos.Steady() ==> sum == Scan(dos.volume, p, 0))
      ensures dos.held == {} && dos.peak <= MAX_DEPTH + 1
      ensures out.Appended(old(out.written), old(out.failed), Summary(sum, p))
      ensures code == if Wrap(sum.errors) != 0 then 5 else 0
    {
      hide Scan, Summary, Dos.Steady;
      ScanDir(path, p, 0);
      PrintSummary(path, p, out);
      code := if errorCount != 0 then 5 else 0;
    }

    /** The line of totals. */
    method PrintSummary(path: array<byte>, ghost p: CString, out: Sink)
      requires Valid() && Holds(path, p)
      modifies out
      ensures out.Appended(old(out.written), old(out.failed), Summary(sum, p))
    {
      hide Counters, Ending;
      PrintCounters(out);
      PrintPath(path, p, out);
    }

    method PrintCounters(out: Sink)
      requires Valid()
      modifies out
      ensures out.Appended(old(out.written), old(out.failed), Counters(sum))
    {
      hide Decimal, Wrap;
      PutU32(out, totalBytes);
      PutField(out, [' '], fileCount);
      PutField(out, [' '], dirCount);
      PutField(out, [' '], errorCount);
    }

    method PrintPath(path: array<byte>, ghost p: CString, out: Sink)
      requires Holds(path, p)
      modifies out
      ensures out.Appended(old(out.written), old(out.failed), Ending(p))
    {
      TextIs(path[..], p);
      hide Text;
      out.Puts([' ']);
      out.Puts(if path[0] != '\0' then Text(path[..]) else ['.']);
      out.Puts(['\n']);
    }
  }

  /** The counters as printed, in 32 bits. */
  ghost function Counters(t: Tally): seq<byte> {
    Decimal(Min(MAX_ULONG, t.bytes)) + ([' '] + Decimal(Wrap(t.files))) + ([' '] + Decimal(Wrap(t.dirs)))
    + ([' '] + Decimal(Wrap(t.errors)))
  }

  ghost function Ending(p: CString): seq<byte> {
    [' '] + (if p != [] then p else ['.']) + ['\n']
  }

  ghost function Summary(t: Tally, p: CString): seq<byte> {
    Counters(t) + Ending(p)
  }

  // ------------------------------------------------------ reading the totals

  /** The characters before the first blank, and those after it. */
  ghost function FirstWord(text: seq<byte>): seq<byte> {
    if text == [] || text[0] == ' ' then [] else [text[0]] + FirstWord(text[1..])
  }

  ghost function AfterWord(text: seq<byte>): seq<byte> {
    if text == [] then [] else if text[0] == ' ' then text[1..] else AfterWord(text[1..])
  }

  /** A printed line of totals, split at its first four blanks. */
  datatype Columns = Columns(bytes: seq<byte>, files: seq<byte>, dirs: seq<byte>, errors: seq<byte>, path: seq<byte>)

  ghost function ReadColumns(text: seq<byte>): Columns {
    var afterBytes := AfterWord(text);
    var afterFiles := AfterWord(afterBytes);
    var afterDirs := AfterWord(afterFiles);
    Columns(FirstWord(text), FirstWord(afterBytes), FirstWord(afterFiles), FirstWord(afterDirs), AfterWord(afterDirs))
  }

  lemma {:induction false} WordThen(word: seq<byte>, rest: seq<byte>)
    requires ' ' !in word
    ensures FirstWord(word + [' '] + rest) == word && AfterWord(word + [' '] + rest) == rest
    decreases |word|
  {
    var text := word + [' '] + rest;
    if word != [] {
      assert text[0] == word[0] && word[0] in word;
      assert text[1..] == word[1..] + [' '] + rest;
      WordThen(word[1..], rest);
    }
  }

  /** Whatever a run counted, its printed line reads back: the bytes up to 2^32 - 1, then files, directories
      and errors modulo 2^32, then the path or a dot. */
  lemma SummaryReadsBack(t: Tally, p: CString)
    ensures var c := ReadColumns(Summary(t, p));
      && IsDecimal(c.bytes, if t.bytes > 0xFFFF_FFFF then 0xFFFF_FFFF else t.bytes)
      && IsDecimal(c.files, t.files % 0x1_0000_0000)
      && IsDecimal(c.dirs, t.dirs % 0x1_0000_0000)
      && IsDecimal(c.errors, t.errors % 0x1_0000_0000)
      && c.path == (if p == [] then ['.'] else p) + ['\n']
  {
    hide Decimal, Summary, ReadColumns, IsDecimal;
    var b, f := Decimal(Min(MAX_ULONG, t.bytes)), Decimal(Wrap(t.files));
    var d, e := Decimal(Wrap(t.dirs)), Decimal(Wrap(t.errors));
    NumeralIs(Min(MAX_ULONG, t.bytes));
    NumeralIs(Wrap(t.files));
    NumeralIs(Wrap(t.dirs));
    NumeralIs(Wrap(t.errors));
    SummaryShape(t, p);
    ColumnsOf(b, f, d, e, (if p == [] then ['.'] else p) + ['\n']);
  }

  lemma SummaryShape(t: Tally, p: CString)
    ensures Summary(t, p) == Decimal(Min(MAX_ULONG, t.bytes)) + [' '] + (Decimal(Wrap(t.files)) + [' ']
      + (Decimal(Wrap(t.dirs)) + [' '] + (Decimal(Wrap(t.errors)) + [' '] + ((if p == [] then ['.'] else p) + ['\n']))))
  {
    hide Decimal, Wrap;
  }

  lemma ColumnsOf(b: seq<byte>, f: seq<byte>, d: seq<byte>, e: seq<byte>, path: seq<byte>)
    requires ' ' !in b && ' ' !in f && ' ' !in d && ' ' !in e
    ensures ReadColumns(b + [' '] + (f + [' '] + (d + [' '] + (e + [' '] + path)))) == Columns(b, f, d, e, path)
  {
    hide FirstWord, AfterWord;
    WordThen(b, f + [' '] + (d + [' '] + (e + [' '] + path)));
    WordThen(f, d + [' '] + (e + [' '] + path));
    WordThen(d, e + [' '] + path);
    WordThen(e, path);
  }

  lemma NumeralIs(v: nat)
    ensures IsDecimal(Decimal(v), v) && ' ' !in Decimal(v)
  {
    DecimalIs(v);
  }

  // -------------------------------------------- what a scan says about a tree

  /** A tally that reports on a total: never too much, and exactly it when no error was counted. */
  ghost predicate Reports(t: Tally, total: Total, clean: bool, mostErrors: nat) {
    && t.files <= total.files && t.dirs <= total.dirs && t.bytes <= total.bytes
    && (t.errors == 0 <==> clean)
    && (clean ==> t.files == total.files && t.dirs == total.dirs && t.bytes == total.bytes)
    && t.errors <= mostErrors
  }

  ghost predicate ScanReports(v: Volume, p: CString, node: Node, depth: nat)
    requires depth <= MAX_DEPTH + 1
  {
    Reports(Scan(v, p, depth), OwnTotal(node).Plus(Sum(Walk(node, p, depth))),
            depth <= MAX_DEPTH && Opens(v, p, node) && AllHandled(v, Walk(node, p, depth)),
            1 + |Walk(node, p, depth)|)
  }

  ghost predicate EntryReports(v: Volume, p: CString, e: Entry, depth: nat, info: Info)
    requires depth <= MAX_DEPTH
  {
    var q := Join(p, e.name);
    Reports(EntryTally(v, p, depth, e.name, info),
            OwnTotal(e.node).Plus(Sum(Walk(e.node, q, depth + 1))),
            Handled(v, Visit(q, e.name, e.node, depth)) && AllHandled(v, Walk(e.node, q, depth + 1)),
            1 + |Walk(e.node, q, depth + 1)|)
  }

  ghost predicate FromReports(v: Volume, p: CString, node: Node, depth: nat, i: nat)
    requires depth <= MAX_DEPTH && i <= MAX_ENTRIES
  {
    Reports(ScanFrom(v, p, depth, i), Sum(Below(node, p, depth, i)),
            Readable(v, p, node, i) && AllHandled(v, Below(node, p, depth, i)),
            1 + |Below(node, p, depth, i)|)
  }

  /** An object that could not be handled counts one error and nothing else. */
  lemma ErrorReports(total: Total, most: nat)
    requires most >= 1
    ensures Reports(ERROR, total, false, most)
  {
  }

  lemma FileReports(size: LONG, node: Node, most: nat)
    requires node.File? && node.size == size
    ensures Reports(FileTally(size), OwnTotal(node).Plus(EMPTY), true, most)
  {
  }

  lemma DirReports(t: Tally, node: Node, total: Total, clean: bool, most: nat)
    requires node.Dir? && Reports(t, total, clean, most)
    ensures Reports(Tally(0, 1, 0, 0).Plus(t), OwnTotal(node).Plus(total), clean, most)
  {
  }

  /** Two reports add up. */
  lemma ReportsAdd(a: Tally, total: Total, clean: bool, most: nat, b: Tally, total': Total, clean': bool, most': nat)
    requires Reports(a, total, clean, most) && Reports(b, total', clean', most')
    ensures Reports(a.Plus(b), total.Plus(total'), clean && clean', most + most')
  {
  }

  lemma NothingBelowFile(v: Volume, p: CString, node: Node, depth: nat)
    requires node.File?
    ensures Walk(node, p, depth) == [] && Sum([]) == EMPTY && AllHandled(v, [])
  {
  }

  lemma {:induction false} ScanMeaning(v: Volume, p: CString, node: Node, depth: nat)
    requires Shows(v, p, node) && depth <= MAX_DEPTH
    ensures ScanReports(v, p, node, depth)
    decreases node, 1
  {
    assert v.examine(p).Some? ==> Describes(v.examine(p).value, node);
    hide *;
    if node.Dir? { FromMeaning(v, p, node, depth, 0); }
    ScanFromListing(v, p, node, depth);
  }

  /** The branches of a scan, given what its listing reports. */
  lemma ScanFromListing(v: Volume, p: CString, node: Node, depth: nat)
    requires depth <= MAX_DEPTH
    requires v.examine(p).Some? ==> Describes(v.examine(p).value, node)
    requires node.Dir? ==> FromReports(v, p, node, depth, 0)
    ensures ScanReports(v, p, node, depth)
  {
    var total := OwnTotal(node).Plus(Sum(Walk(node, p, depth)));
    var most := 1 + |Walk(node, p, depth)|;
    hide Reports, Scan, ScanFrom, Sum, Below, AllHandled, OwnTotal, FileTally, Readable;
    UnfoldScan(v, p, depth);
    if !v.locks(p) || v.examine(p).None? {
      ErrorReports(total, most);
    } else if node.File? {
      NothingBelowFile(v, p, node, depth);
      FileReports(node.size, node, most);
    } else {
      DirReports(ScanFrom(v, p, depth, 0), node, Sum(Below(node, p, depth, 0)),
                 Readable(v, p, node, 0) && AllHandled(v, Below(node, p, depth, 0)), most);
    }
  }

  lemma {:induction false} EntryMeaning(v: Volume, p: CString, e: Entry, depth: nat, info: Info)
    requires Shows(v, Join(p, e.name), e.node) && depth <= MAX_DEPTH && Describes(info, e.node)
    ensures EntryReports(v, p, e, depth, info)
    decreases e.node, 2
  {
    hide *;
    if e.node.Dir? && depth < MAX_DEPTH { ScanMeaning(v, Join(p, e.name), e.node, depth + 1); }
    EntryFromScan(v, p, e, depth, info);
  }

  /** The branches of one entry, given what the scan of a subdirectory reports. */
  lemma EntryFromScan(v: Volume, p: CString, e: Entry, depth: nat, info: Info)
    requires depth <= MAX_DEPTH && Describes(info, e.node)
    requires e.node.Dir? && depth < MAX_DEPTH ==> ScanReports(v, Join(p, e.name), e.node, depth + 1)
    ensures EntryReports(v, p, e, depth, info)
  {
    hide *;
    if !Fits(Join(p, e.name)) || (e.node.Dir? && depth == MAX_DEPTH) {
      UnhandledEntry(v, p, e, depth, info);
    } else if e.node.File? {
      FileEntry(v, p, e, depth, info);
    } else {
      DirEntry(v, p, e, depth, info);
    }
  }

  lemma UnhandledEntry(v: Volume, p: CString, e: Entry, depth: nat, info: Info)
    requires depth <= MAX_DEPTH && Describes(info, e.node)
    requires !Fits(Join(p, e.name)) || (e.node.Dir? && depth == MAX_DEPTH)
    ensures EntryReports(v, p, e, depth, info)
  {
    var q := Join(p, e.name);
    UnhandledIsError(v, p, e, depth, info);
    hide Reports, Scan, EntryTally, Handled, Sum, AllHandled, Walk, Join, OwnTotal;
    ErrorReports(OwnTotal(e.node).Plus(Sum(Walk(e.node, q, depth + 1))), 1 + |Walk(e.node, q, depth + 1)|);
  }

  lemma UnhandledIsError(v: Volume, p: CString, e: Entry, depth: nat, info: Info)
    requires depth <= MAX_DEPTH && Describes(info, e.node)
    requires !Fits(Join(p, e.name)) || (e.node.Dir? && depth == MAX_DEPTH)
    ensures EntryTally(v, p, depth, e.name, info) == ERROR
    ensures !Handled(v, Visit(Join(p, e.name), e.name, e.node, depth))
  {
    hide Scan, Opens, Join, Fits;
  }

  lemma FileEntry(v: Volume, p: CString, e: Entry, depth: nat, info: Info)
    requires depth <= MAX_DEPTH && Describes(info, e.node) && e.node.File? && Fits(Join(p, e.name))
    ensures EntryReports(v, p, e, depth, info)
  {
    var q := Join(p, e.name);
    hide Reports, Scan, Sum, Opens, AllHandled, Walk, Join, Fits, OwnTotal, FileTally;
    NothingBelowFile(v, q, e.node, depth + 1);
    FileReports(info.size, e.node, 1 + |Walk(e.node, q, depth + 1)|);
  }

  lemma DirEntry(v: Volume, p: CString, e: Entry, depth: nat, info: Info)
    requires depth < MAX_DEPTH && Describes(info, e.node) && e.node.Dir? && Fits(Join(p, e.name))
    requires ScanReports(v, Join(p, e.name), e.node, depth + 1)
    ensures EntryReports(v, p, e, depth, info)
  {
    hide Reports, Scan, Sum, Opens, AllHandled, Walk, Join, Fits, OwnTotal;
  }

  lemma {:induction false} FromMeaning(v: Volume, p: CString, node: Node, depth: nat, i: nat)
    requires Shows(v, p, node) && node.Dir? && depth <= MAX_DEPTH
    requires i <= |node.entries| && i <= MAX_ENTRIES
    ensures FromReports(v, p, node, depth, i)
    decreases node, 0, MAX_ENTRIES - i, 1
  {
    hide *;
    if i < MAX_ENTRIES && i < |node.entries| && v.list(p, i).Next? {
      OneMoreEntry(v, p, node, depth, i);
    } else {
      EndOfListing(v, p, node, depth, i);
    }
  }

  /** A listing that stops: at the limit, at its end, or because it fails. */
  lemma EndOfListing(v: Volume, p: CString, node: Node, depth: nat, i: nat)
    requires Shows(v, p, node) && node.Dir? && depth <= MAX_DEPTH
    requires i <= |node.entries| && i <= MAX_ENTRIES
    requires i == MAX_ENTRIES || i == |node.entries| || v.list(p, i).Stop?
    ensures FromReports(v, p, node, depth, i)
  {
    assert i == |node.entries| ==> v.list(p, i).Stop?;
    hide Shows, ScanFrom, Sum, Below, AllHandled;
    Unfold(v, p, depth, i);
    if i == |node.entries| { NothingBelowEnd(v, p, node, depth, i); }
    else { ShownEntry(v, p, node, i); }
  }

  lemma NothingBelowEnd(v: Volume, p: CString, node: Node, depth: nat, i: nat)
    requires node.Dir? && i == |node.entries|
    ensures Below(node, p, depth, i) == [] && Sum([]) == EMPTY && AllHandled(v, [])
  {
  }

  lemma {:induction false} OneMoreEntry(v: Volume, p: CString, node: Node, depth: nat, i: nat)
    requires Shows(v, p, node) && node.Dir? && depth <= MAX_DEPTH
    requires i < |node.entries| && i < MAX_ENTRIES && v.list(p, i).Next?
    ensures FromReports(v, p, node, depth, i)
    decreases node, 0, MAX_ENTRIES - i, 0
  {
    hide *;
    ShownEntry(v, p, node, i);
    EntryMeaning(v, p, node.entries[i], depth, v.list(p, i).info);
    FromMeaning(v, p, node, depth, i + 1);
    AddEntry(v, p, node, depth, i);
  }

  lemma AddEntry(v: Volume, p: CString, node: Node, depth: nat, i: nat)
    requires node.Dir? && depth <= MAX_DEPTH && i < |node.entries| && i < MAX_ENTRIES
    requires v.list(p, i).Next? && v.list(p, i).name == node.entries[i].name
    requires EntryReports(v, p, node.entries[i], depth, v.list(p, i).info)
    requires FromReports(v, p, node, depth, i + 1)
    ensures FromReports(v, p, node, depth, i)
  {
    hide Reports, ScanFrom, EntryTally, Sum, Walk, Below, AllHandled, Handled, OwnTotal, Join, Readable, Tally.Plus, Total.Plus;
    var e, info := node.entries[i], v.list(p, i).info;
    var q := Join(p, e.name);
    ReadableStep(v, p, node, i);
    Unfold(v, p, depth, i);
    SumStep(node, p, depth, i);
    HandledStep(v, node, p, depth, i);
    BelowStep(node, p, depth, i);
    ReportsAdd(EntryTally(v, p, depth, e.name, info),
               OwnTotal(e.node).Plus(Sum(Walk(e.node, q, depth + 1))),
               Handled(v, Visit(q, e.name, e.node, depth)) && AllHandled(v, Walk(e.node, q, depth + 1)),
               1 + |Walk(e.node, q, depth + 1)|,
               ScanFrom(v, p, depth, i + 1), Sum(Below(node, p, depth, i + 1)),
               Readable(v, p, node, i + 1) && AllHandled(v, Below(node, p, depth, i + 1)),
               1 + |Below(node, p, depth, i + 1)|);
  }

  /** The numbers of any run are lower bounds, and a run without errors, which is exactly a run in which
      everything could be read within the limits, reports the whole tree. */
  lemma CleanRunIsExact(v: Volume, p: CString, node: Node)
    requires Shows(v, p, node)
    ensures var t, total := Scan(v, p, 0), TrueTotal(node, p);
            && t.files <= total.files && t.dirs <= total.dirs && t.bytes <= total.bytes
            && (t.errors == 0 <==> Opens(v, p, node) && AllHandled(v, Walk(node, p, 0)))
            && (t.errors == 0 ==> t.files == total.files && t.dirs == total.dirs && t.bytes == total.bytes)
  {
    hide Shows, Scan, Sum, Walk, AllHandled;
    ScanMeaning(v, p, node, 0);
  }

  /** With fewer than 2^32 - 1 objects below the root no counter can wrap around, so exit code 0 itself
      means that the printed line shows the true totals, the bytes up to 2^32 - 1. */
  lemma ExitZeroIsExact(v: Volume, p: CString, node: Node)
    requires Shows(v, p, node) && |Walk(node, p, 0)| < MAX_ULONG
    ensures var t, total := Scan(v, p, 0), TrueTotal(node, p);
            && (Wrap(t.errors) == 0 <==> Opens(v, p, node) && AllHandled(v, Walk(node, p, 0)))
            && (Wrap(t.errors) == 0 ==> Summary(t, p) == TrueSummary(total, p))
  {
    hide Shows, Scan, Sum, Walk, AllHandled, Opens, Summary, TrueSummary;
    ScanMeaning(v, p, node, 0);
    SumCountsVisits(Walk(node, p, 0));
    if Wrap(Scan(v, p, 0).errors) == 0 { ExactSummary(Scan(v, p, 0), TrueTotal(node, p), p); }
  }

  /** The line of totals of a tree, in unbounded numbers but for the bytes. */
  ghost function TrueSummary(total: Total, p: CString): seq<byte> {
    Decimal(Min(MAX_ULONG, total.bytes)) + ([' '] + Decimal(total.files)) + ([' '] + Decimal(total.dirs))
    + ([' '] + Decimal(0)) + Ending(p)
  }

  lemma ExactSummary(t: Tally, total: Total, p: CString)
    requires t.files == total.files <= MAX_ULONG && t.dirs == total.dirs <= MAX_ULONG
    requires t.bytes == total.bytes && t.errors == 0
    ensures Summary(t, p) == TrueSummary(total, p)
  {
    hide Decimal;
  }

  /** A directory with 1024 entries or more is counted as an error, also when all of exactly 1024 were taken. */
  lemma FullDirectoryIsAnError(v: Volume, p: CString, node: Node)
    requires Shows(v, p, node) && node.Dir? && |node.entries| >= 1024
    ensures Scan(v, p, 0).errors > 0
  {
    hide Shows, Scan, Sum, Walk, AllHandled;
    ScanMeaning(v, p, node, 0);
  }

  // ---------------------------------------------------------- the whole program

  /** DU from its arguments to its exit code; without an argument it takes the current directory.  All locks are
      given back and at most 17 are held at once, whatever DOS answers.  If a steady DOS shows a tree of fewer
      than 2^32 - 1 objects, exit code 0 means that the true totals were printed. */
  method Program(argv: seq<CString>, dos: Dos, out: Sink) returns (code: int, ghost t: Tally)
    requires dos.Valid() && dos.held == {} && dos.peak == 0
    modifies dos, out
    ensures dos.held == {} && dos.peak <= 17
    ensures code == 0 || code == 5 || code == 10
    ensures code == 10 <==> |argv| > 2
    ensures code == 10 ==> out.written == old(out.written)
    ensures code != 10 ==>
      && out.Appended(old(out.written), old(out.failed), Summary(t, PathArgument(argv, 1)))
      && (code == 5 <==> Wrap(t.errors) != 0)
      && (dos.Steady() ==> t == Scan(dos.volume, PathArgument(argv, 1), 0))
    ensures forall node :: code != 10 && dos.Steady() && ShowsSmall(dos.volume, PathArgument(argv, 1), node) ==>
      var v, p := dos.volume, PathArgument(argv, 1);
      && (code == 0 <==> Opens(v, p, node) && AllHandled(v, Walk(node, p, 0)))
      && (code == 0 ==> out.Appended(old(out.written), old(out.failed), TrueSummary(TrueTotal(node, p), p)))
  {
    hide Scan, Summary, TrueSummary, TrueTotal, Opens, AllHandled, Walk, Wrap, ShowsSmall, Dos.Steady;
    t := NOTHING;
    if |argv| > 2 { return 10, t; }
    var p := if |argv| == 2 then argv[1] else [];
    var slots := new Slots();
    var path := NewPath(p);
    var du := new DU(dos, slots);
    code := du.Run(path, p, out);
    t := du.sum;
    forall node | dos.Steady() && ShowsSmall(dos.volume, p, node)
      ensures code == 0 <==> Opens(dos.volume, p, node) && AllHandled(dos.volume, Walk(node, p, 0))
      ensures code == 0 ==> Summary(t, p) == TrueSummary(TrueTotal(node, p), p)
    {
      SmallShown(dos.volume, p, node);
      ExitZeroIsExact(dos.volume, p, node);
    }
  }
}
