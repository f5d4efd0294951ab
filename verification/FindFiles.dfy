/** Find: prints the path of everything whose name contains a pattern, ignoring ASCII case. */
module FindFiles {
  import opened Bytes
  import opened Numbers
  import opened Streams
  import opened Trees
  import opened Volumes

  // ------------------------------------------------------- substring search

  function Fold(c: char): char {
    if 'A' <= c <= 'Z' then (c as int - 'A' as int + 'a' as int) as char else c
  }

  ghost predicate MatchesAt(text: string, k: nat, needle: string) {
    k + |needle| <= |text| && forall j :: 0 <= j < |needle| ==> Fold(text[k + j]) == Fold(needle[j])
  }

  /** The needle occurs somewhere in the text, up to the case of ASCII letters. */
  ghost predicate Contains(text: string, needle: string) {
    exists k: nat :: MatchesAt(text, k, needle)
  }

  method CharEq(a: char, b: char) returns (equal: bool)
    ensures equal <==> Fold(a) == Fold(b)
  {
    var x, y := a, b;
    if 'A' <= x <= 'Z' { x := (x as int - 'A' as int + 'a' as int) as char; }
    if 'A' <= y <= 'Z' { y := (y as int - 'A' as int + 'a' as int) as char; }
    equal := x == y;
  }

  /** contains_ci. */
  method ContainsCi(text: CString, needle: CString) returns (found: bool)
    ensures found <==> Contains(text, needle)
  {
    if |needle| == 0 {
      assert MatchesAt(text, 0, needle);
      return true;
    }
    var i := 0;
    while i < |text|
      invariant 0 <= i <= |text|
      invariant forall k: nat :: k < i ==> !MatchesAt(text, k, needle)
    {
      var j := 0;
      while j < |needle| && i + j < |text|
        invariant 0 <= j <= |needle| && i + j <= |text|
        invariant forall m :: 0 <= m < j ==> Fold(text[i + m]) == Fold(needle[m])
      {
        var equal := CharEq(text[i + j], needle[j]);
        if !equal { break; }
        j := j + 1;
      }
      if j == |needle| {
        assert MatchesAt(text, i, needle);
        return true;
      }
      i := i + 1;
    }
    found := false;
  }

  lemma UpperCase(i: nat)
    requires i < 26
    ensures "ABCDEFGHIJKLMNOPQRSTUVWXYZ"[i] as int == 'A' as int + i
  {
  }

  lemma LowerCase(i: nat)
    requires i < 26
    ensures "abcdefghijklmnopqrstuvwxyz"[i] as int == 'a' as int + i
  {
  }

  /** Two characters match exactly when they are equal or the two cases of one of the 26 letters. */
  lemma CasesMatch(a: char, b: char)
    ensures Fold(a) == Fold(b) <==>
      a == b
      || exists i :: 0 <= i < 26 &&
           ((a == "ABCDEFGHIJKLMNOPQRSTUVWXYZ"[i] && b == "abcdefghijklmnopqrstuvwxyz"[i])
            || (a == "abcdefghijklmnopqrstuvwxyz"[i] && b == "ABCDEFGHIJKLMNOPQRSTUVWXYZ"[i]))
  {
    var upper, lower := "ABCDEFGHIJKLMNOPQRSTUVWXYZ", "abcdefghijklmnopqrstuvwxyz";
    CasePair(upper, lower, a, b);
  }

  lemma CasePair(upper: string, lower: string, a: char, b: char)
    requires |upper| == |lower| == 26
    requires upper == "ABCDEFGHIJKLMNOPQRSTUVWXYZ" && lower == "abcdefghijklmnopqrstuvwxyz"
    ensures Fold(a) == Fold(b) <==>
      a == b || exists i :: 0 <= i < 26 && ((a == upper[i] && b == lower[i]) || (a == lower[i] && b == upper[i]))
  {
    forall i | 0 <= i < 26 ensures upper[i] as int == 'A' as int + i && lower[i] as int == 'a' as int + i {
      UpperCase(i);
      LowerCase(i);
    }
    CasePairOf(upper, lower, a, b);
  }

  lemma CasePairOf(upper: string, lower: string, a: char, b: char)
    requires |upper| == |lower| == 26
    requires forall i :: 0 <= i < 26 ==> upper[i] as int == 'A' as int + i && lower[i] as int == 'a' as int + i
    ensures Fold(a) == Fold(b) <==>
      a == b || exists i :: 0 <= i < 26 && ((a == upper[i] && b == lower[i]) || (a == lower[i] && b == upper[i]))
  {
    if a != b && Fold(a) == Fold(b) {
      var i := Fold(a) as int - 'a' as int;
      assert 0 <= i < 26 && lower[i] == Fold(a);
      assert upper[i] as int == 'A' as int + i;
    }
  }

  lemma MatchMeans(text: string, k: nat, needle: string)
    requires k <= |text|
    ensures MatchesAt(text, k, needle) <==>
      |needle| <= |text[k..]| && forall j :: 0 <= j < |needle| ==>
        text[k..][j] == needle[j]
        || exists i :: 0 <= i < 26 &&
             ((text[k..][j] == "ABCDEFGHIJKLMNOPQRSTUVWXYZ"[i] && needle[j] == "abcdefghijklmnopqrstuvwxyz"[i])
              || (text[k..][j] == "abcdefghijklmnopqrstuvwxyz"[i] && needle[j] == "ABCDEFGHIJKLMNOPQRSTUVWXYZ"[i]))
  {
    hide Fold;
    forall j | 0 <= j < |needle| && k + j < |text|
      ensures Fold(text[k + j]) == Fold(needle[j]) <==>
        text[k..][j] == needle[j]
        || exists i :: 0 <= i < 26 &&
             ((text[k..][j] == "ABCDEFGHIJKLMNOPQRSTUVWXYZ"[i] && needle[j] == "abcdefghijklmnopqrstuvwxyz"[i])
              || (text[k..][j] == "abcdefghijklmnopqrstuvwxyz"[i] && needle[j] == "ABCDEFGHIJKLMNOPQRSTUVWXYZ"[i]))
    {
      assert text[k..][j] == text[k + j];
      CasesMatch(text[k + j], needle[j]);
    }
  }

  /** A name contains a pattern exactly when, from some position on, each pair of characters is equal or the
      two cases of one letter. */
  lemma ContainsIgnoresCase(text: string, needle: string)
    ensures Contains(text, needle) <==>
      exists k: nat :: k <= |text| && |needle| <= |text[k..]| && forall j :: 0 <= j < |needle| ==>
        text[k..][j] == needle[j]
        || exists i :: 0 <= i < 26 &&
             ((text[k..][j] == "ABCDEFGHIJKLMNOPQRSTUVWXYZ"[i] && needle[j] == "abcdefghijklmnopqrstuvwxyz"[i])
              || (text[k..][j] == "abcdefghijklmnopqrstuvwxyz"[i] && needle[j] == "ABCDEFGHIJKLMNOPQRSTUVWXYZ"[i]))
  {
    forall k: nat | MatchesAt(text, k, needle) ensures k <= |text| {}
    hide MatchesAt;
    forall k: nat | k <= |text|
      ensures MatchesAt(text, k, needle) <==>
        |needle| <= |text[k..]| && forall j :: 0 <= j < |needle| ==>
          text[k..][j] == needle[j]
          || exists i :: 0 <= i < 26 &&
               ((text[k..][j] == "ABCDEFGHIJKLMNOPQRSTUVWXYZ"[i] && needle[j] == "abcdefghijklmnopqrstuvwxyz"[i])
                || (text[k..][j] == "abcdefghijklmnopqrstuvwxyz"[i] && needle[j] == "ABCDEFGHIJKLMNOPQRSTUVWXYZ"[i]))
    {
      MatchMeans(text, k, needle);
    }
  }

  // ------------------------------------------------ the scan, for any volume

  datatype Found = Found(lines: seq<CString>, errors: nat)
  {
    function Plus(f: Found): Found {
      Found(lines + f.lines, errors + f.errors)
    }
  }

  const NOTHING := Found([], 0)
  const ERROR := Found([], 1)

  ghost function OwnLine(q: CString, name: CString, needle: CString): seq<CString> {
    if Contains(name, needle) then [q] else []
  }

  /** scan_dir at a depth; unlike DU's it lists the object whatever Examine says it is. */
  ghost function Scan(v: Volume, p: CString, needle: CString, depth: nat): Found
    requires depth <= MAX_DEPTH + 1
    decreases MAX_DEPTH + 1 - depth, MAX_ENTRIES + 1
  {
    if depth > MAX_DEPTH || !v.locks(p) || v.examine(p).None? then ERROR
    else ScanFrom(v, p, needle, depth, 0)
  }

  ghost function ScanFrom(v: Volume, p: CString, needle: CString, depth: nat, i: nat): Found
    requires depth <= MAX_DEPTH && i <= MAX_ENTRIES
    decreases MAX_DEPTH + 1 - depth, MAX_ENTRIES - i
  {
    if i == MAX_ENTRIES then ERROR
    else match v.list(p, i)
      case Stop(code) => if code == ERROR_NO_MORE_ENTRIES then NOTHING else ERROR
      case Next(name, info) => EntryFound(v, p, needle, depth, name, info).Plus(ScanFrom(v, p, needle, depth, i + 1))
  }

  ghost function EntryFound(v: Volume, p: CString, needle: CString, depth: nat, name: CString, info: Info): Found
    requires depth <= MAX_DEPTH
    decreases MAX_DEPTH + 1 - depth, 0
  {
    if !Fits(Join(p, name)) then ERROR
    else Found(OwnLine(Join(p, name), name, needle), 0).Plus(
      if IsFile(info) then NOTHING
      else if depth < MAX_DEPTH then Scan(v, Join(p, name), needle, depth + 1)
      else ERROR)
  }

  lemma Unfold(v: Volume, p: CString, needle: CString, depth: nat, i: nat)
    requires depth <= MAX_DEPTH && i <= MAX_ENTRIES
    ensures i == MAX_ENTRIES ==> ScanFrom(v, p, needle, depth, i) == ERROR
    ensures i < MAX_ENTRIES && v.list(p, i).Stop? ==>
      ScanFrom(v, p, needle, depth, i) == if v.list(p, i).code == ERROR_NO_MORE_ENTRIES then NOTHING else ERROR
    ensures i < MAX_ENTRIES && v.list(p, i).Next? ==>
      ScanFrom(v, p, needle, depth, i)
      == EntryFound(v, p, needle, depth, v.list(p, i).name, v.list(p, i).info)
         .Plus(ScanFrom(v, p, needle, depth, i + 1))
  {
  }

  lemma UnfoldScan(v: Volume, p: CString, needle: CString, depth: nat)
    requires depth <= MAX_DEPTH + 1
    ensures Scan(v, p, needle, depth)
         == if depth > MAX_DEPTH || !v.locks(p) || v.examine(p).None? then ERROR else ScanFrom(v, p, needle, depth, 0)
  {
  }

  lemma UnfoldEntry(v: Volume, p: CString, needle: CString, depth: nat, name: CString, info: Info)
    requires depth <= MAX_DEPTH
    ensures var q := Join(p, name);
            EntryFound(v, p, needle, depth, name, info)
            == if !Fits(q) then ERROR
               else Found(OwnLine(q, name, needle), 0).Plus(
                 if IsFile(info) then NOTHING
                 else if depth < MAX_DEPTH then Scan(v, q, needle, depth + 1)
                 else ERROR)
  {
  }

  lemma PlusAssoc(a: Found, b: Found, c: Found)
    ensures a.Plus(b).Plus(c) == a.Plus(b.Plus(c))
    ensures a.Plus(NOTHING) == a == NOTHING.Plus(a)
  {
  }

  // -------------------------------------------------------------- the program

  /** Printed text: every line followed by a newline. */
  ghost function Printed(lines: seq<CString>): seq<byte> {
    if lines == [] then [] else Printed(lines[..|lines| - 1]) + (lines[|lines| - 1] + ['\n'])
  }

  class Find {
    const dos: Dos
    const slots: Slots
    const needle: CString
    const out: Sink
    var matchCount: ULONG
    var errorCount: ULONG
    ghost var found: Found          // the lines printed and the errors met, without wrap-around
    ghost const before: seq<byte>   // the output before the search
    ghost const failedBefore: bool

    constructor (dos: Dos, slots: Slots, needle: CString, out: Sink)
      requires slots.Valid() && dos.Valid()
      ensures this.dos == dos && this.slots == slots && this.needle == needle && this.out == out
      ensures before == out.written && failedBefore == out.failed
      ensures Valid() && found == NOTHING
    {
      this.dos, this.slots, this.needle, this.out := dos, slots, needle, out;
      matchCount, errorCount, found := 0, 0, NOTHING;
      before, failedBefore := out.written, out.failed;
    }

    ghost predicate Valid()
      reads this, dos, out
    {
      && slots.Valid() && dos.Valid()
      && out.Appended(before, failedBefore, Printed(found.lines))
      && matchCount == Wrap(|found.lines|) && errorCount == Wrap(found.errors)
    }

    method CountError()
      requires Valid()
      modifies `errorCount, `found
      ensures Valid() && found == old(found).Plus(ERROR)
    {
      WrapAdd(found.errors, 1);
      errorCount := Wrap(errorCount + 1);
      assert found.lines + [] == found.lines;
      found := found.Plus(ERROR);
    }

    /** Prints one path, taken from its buffer, and counts it. */
    method Print(path: array<byte>, ghost p: CString)
      requires Valid() && Holds(path, p)
      modifies out, `matchCount, `found
      ensures Valid() && found == old(found).Plus(Found([p], 0))
    {
      TextIs(path[..], p);
      PrintedSnoc(found.lines, p);
      hide Printed;
      PrintLine(Text(path[..]), before, failedBefore, Printed(found.lines));
      WrapAdd(|found.lines|, 1);
      matchCount := Wrap(matchCount + 1);
      found := found.Plus(Found([p], 0));
    }

    method PrintLine(text: CString, ghost base: seq<byte>, ghost failed: bool, ghost sofar: seq<byte>)
      requires out.Appended(base, failed, sofar)
      modifies out
      ensures out.Appended(base, failed, sofar + (text + ['\n']))
    {
      out.PutsMore(text, base, failed, sofar);
      out.PutsMore(['\n'], base, failed, sofar + text);
      Assoc(sofar, text, ['\n']);
    }

    /** scan_dir. */
    method ScanDir(path: array<byte>, ghost p: CString, depth: nat)
      requires Valid() && depth <= MAX_DEPTH + 1
      requires Holds(path, p) && path !in slots.From(depth)
      modifies this, dos, out, slots.From(depth)
      ensures Valid()
      ensures dos.Steady() ==> found == old(found).Plus(Scan(dos.volume, p, needle, depth))
      ensures dos.held == old(dos.held)
      ensures dos.peak <= PeakBound(old(dos.peak), |old(dos.held)|, depth)
      decreases MAX_DEPTH + 1 - depth, 4
    {
      hide Scan, ScanFrom, Found.Plus, Printed, Dos.Steady;
      UnfoldScan(dos.volume, p, needle, depth);
      if depth > MAX_DEPTH {
        CountError();
        return;
      }
      var lock := dos.Lock(path, p);
      if lock.NoLock? {
        CountError();
        return;
      }
      AddRemove(old(dos.held), lock.id);
      ScanLocked(path, p, depth, lock);
      dos.UnLock(lock);
    }

    /** scan_dir between Lock and UnLock. */
    method ScanLocked(path: array<byte>, ghost p: CString, depth: nat, lock: FileLock)
      requires Valid() && depth <= MAX_DEPTH
      requires Holds(path, p) && path !in slots.From(depth)
      requires lock.FileLock? && lock.path == p && lock.id in dos.held
      requires dos.Steady() ==> dos.volume.locks(p)
      modifies this, dos, out, slots.From(depth)
      ensures Valid()
      ensures dos.Steady() ==> found == old(found).Plus(Scan(dos.volume, p, needle, depth))
      ensures dos.held == old(dos.held)
      ensures dos.peak <= PeakBound(old(dos.peak), |old(dos.held)|, depth + 1)
      decreases MAX_DEPTH + 1 - depth, 3
    {
      hide Scan, ScanFrom, Found.Plus, Printed, Dos.Steady;
      slots.Layers(depth);
      UnfoldScan(dos.volume, p, needle, depth);
      var ok := dos.Examine(lock, slots.fibs[depth]);
      if !ok {
        CountError();
        return;
      }
      ScanEntries(path, p, depth, lock);
    }

    /** Prints an entry's path when its name contains the needle. */
    method PrintIfMatching(child: array<byte>, ghost q: CString, name: CString)
      requires Valid() && Holds(child, q)
      modifies out, `matchCount, `found
      ensures Valid() && found == old(found).Plus(Found(OwnLine(q, name, needle), 0))
    {
      hide Contains;
      PlusAssoc(found, NOTHING, NOTHING);
      var matches := ContainsCi(name, needle);
      if matches { Print(child, q); }
    }

    /** The body of the listing loop, for the entry just read into the block. */
    method ScanEntry(path: array<byte>, ghost p: CString, depth: nat)
      requires Valid() && depth <= MAX_DEPTH
      requires Holds(path, p) && path !in slots.From(depth)
      modifies this, dos, out, slots.paths[depth], slots.From(depth + 1)
      ensures Valid() && dos.held == old(dos.held)
      ensures dos.Steady() ==> found == old(found).Plus(
        EntryFound(dos.volume, p, needle, depth, old(slots.fibs[depth].name), old(slots.fibs[depth].info)))
      ensures dos.peak <= PeakBound(old(dos.peak), |old(dos.held)|, depth + 1)
      decreases MAX_DEPTH + 1 - depth, 0
    {
      hide Scan, EntryFound, Contains, OwnLine, Found.Plus, Printed, Wrap, Join, Fits, Dos.Steady;
      slots.Layers(depth);
      var fib, child := slots.fibs[depth], slots.paths[depth];
      var name := fib.name;
      UnfoldEntry(dos.volume, p, needle, depth, name, fib.info);
      var fits := AppendName(child, path, name, p);
      if !fits {
        CountError();
        return;
      }
      ghost var own := Found(OwnLine(Join(p, name), name, needle), 0);
      PlusAssoc(own, NOTHING, NOTHING);
      PrintIfMatching(child, Join(p, name), name);
      if fib.info.entryType >= 0 {
        if depth < MAX_DEPTH {
          PlusAssoc(old(found), own, Scan(dos.volume, Join(p, name), needle, depth + 1));
          ScanDir(child, Join(p, name), depth + 1);
        } else {
          PlusAssoc(old(found), own, ERROR);
          CountError();
        }
      }
    }

    /** One turn of the listing loop: asks for an entry and, if there is one, handles it. */
    method NextEntry(path: array<byte>, ghost p: CString, depth: nat, lock: FileLock, ghost i: nat) returns (more: bool)
      requires Valid() && depth <= MAX_DEPTH && i < MAX_ENTRIES
      requires Holds(path, p) && path !in slots.From(depth)
      requires lock.FileLock? && lock.path == p && lock.id in dos.held
      requires slots.fibs[depth].key == i
      modifies this, dos, out, slots.From(depth)
      ensures Valid() && dos.held == old(dos.held)
      ensures dos.peak <= PeakBound(old(dos.peak), |old(dos.held)|, depth + 1)
      ensures more ==> slots.fibs[depth].key == i + 1
      ensures dos.Steady() && more ==>
        found.Plus(ScanFrom(dos.volume, p, needle, depth, i + 1))
        == old(found).Plus(ScanFrom(dos.volume, p, needle, depth, i))
      ensures !more ==> found == old(found)
      ensures dos.Steady() && !more ==>
        ScanFrom(dos.volume, p, needle, depth, i) == if dos.ioErr == ERROR_NO_MORE_ENTRIES then NOTHING else ERROR
      decreases MAX_DEPTH + 1 - depth, 1
    {
      hide ScanFrom, EntryFound, Found.Plus, Printed, Dos.Steady;
      slots.Layers(depth);
      Unfold(dos.volume, p, needle, depth, i);
      more := dos.ExNext(lock, slots.fibs[depth]);
      if more {
        var fib := slots.fibs[depth];
        PlusAssoc(found, EntryFound(dos.volume, p, needle, depth, fib.name, fib.info),
                  ScanFrom(dos.volume, p, needle, depth, i + 1));
        ScanEntry(path, p, depth);
      }
    }

    /** The listing loop of scan_dir. */
    method ScanEntries(path: array<byte>, ghost p: CString, depth: nat, lock: FileLock)
      requires Valid() && depth <= MAX_DEPTH
      requires Holds(path, p) && path !in slots.From(depth)
      requires lock.FileLock? && lock.path == p && lock.id in dos.held
      requires slots.fibs[depth].key == 0
      modifies this, dos, out, slots.From(depth)
      ensures Valid()
      ensures dos.Steady() ==> found == old(found).Plus(ScanFrom(dos.volume, p, needle, depth, 0))
      ensures dos.held == old(dos.held)
      ensures dos.peak <= PeakBound(old(dos.peak), |old(dos.held)|, depth + 1)
      decreases MAX_DEPTH + 1 - depth, 2
    {
      hide ScanFrom, Found.Plus, Printed, Dos.Steady;
      var entries, more := 0, true;
      PlusAssoc(found, NOTHING, NOTHING);
      while entries < MAX_ENTRIES && more
        invariant entries <= MAX_ENTRIES && slots.fibs[depth].key == entries
        invariant Valid() && Holds(path, p) && dos.held == old(dos.held)
        invariant dos.peak <= PeakBound(old(dos.peak), |old(dos.held)|, depth + 1)
        invariant dos.Steady() ==>
          found.Plus(ScanFrom(dos.volume, p, needle, depth, entries))
          == old(found).Plus(ScanFrom(dos.volume, p, needle, depth, 0))
        decreases MAX_ENTRIES - entries
      {
        more := NextEntry(path, p, depth, lock, entries);
        if !more { break; }
        entries := entries + 1;
      }
      Unfold(dos.volume, p, needle, depth, entries);
      PlusAssoc(found, NOTHING, NOTHING);
      if entries >= MAX_ENTRIES {
        CountError();
      } else if dos.ioErr != ERROR_NO_MORE_ENTRIES {
        CountError();
      }
    }

    /** main, after the arguments: the search, and the two counters at its end. */
    method Run(path: array<byte>, ghost p: CString) returns (code: int)
      requires Valid() && found == NOTHING && dos.held == {} && dos.peak == 0
      requires Holds(path, p) && path !in slots.From(0)
      modifies this, dos, out, slots.From(0)
      ensures dos.Steady() ==> found == Scan(dos.volume, p, needle, 0)
      ensures dos.Valid() && dos.held == {} && dos.peak <= MAX_DEPTH + 1
      ensures out.Appended(before, failedBefore, Output(found))
      ensures code == if Wrap(found.errors) != 0 then 5 else 0
    {
      hide Scan, Found.Plus, Printed, Counters, Dos.Steady;
      PlusAssoc(Scan(dos.volume, p, needle, 0), NOTHING, NOTHING);
      ScanDir(path, p, 0);
      ghost var lines := Printed(found.lines);
      Assoc(before, lines, Counters(found));
      PrintCounters();
      code := if errorCount != 0 then 5 else 0;
    }

    method PrintCounters()
      requires Valid()
      modifies out
      ensures out.Appended(old(out.written), old(out.failed), Counters(found))
    {
      hide Decimal, Wrap, MatchesLabel, ErrorsLabel;
      PutField(out, MatchesLabel(), matchCount);
      PutField(out, ErrorsLabel(), errorCount);
      out.Puts(['\n']);
    }
  }

  function MatchesLabel(): seq<byte> { "\nMatches: " }
  function ErrorsLabel(): seq<byte> { "\nErrors: " }

  ghost function Counters(f: Found): seq<byte> {
    (MatchesLabel() + Decimal(Wrap(|f.lines|))) + (ErrorsLabel() + Decimal(Wrap(f.errors))) + ['\n']
  }

  /** Everything a search prints. */
  ghost function Output(f: Found): seq<byte> {
    Printed(f.lines) + Counters(f)
  }

  lemma PrintedSnoc(lines: seq<CString>, line: CString)
    ensures Printed(lines + [line]) == Printed(lines) + (line + ['\n'])
  {
    assert (lines + [line])[..|lines|] == lines;
  }

  lemma {:induction false} PrintedLines(lines: seq<CString>) returns (pieces: seq<seq<byte>>)
    ensures Printed(lines) == Flatten(pieces) && |pieces| == |lines|
    ensures forall k :: 0 <= k < |lines| ==> pieces[k] == lines[k] + ['\n']
  {
    if lines == [] {
      pieces := [];
    } else {
      var n := |lines| - 1;
      var line: seq<byte> := lines[n] + ['\n'];
      pieces := PrintedLines(lines[..n]);
      assert Printed(lines) == Printed(lines[..n]) + line;
      FlattenSnoc(pieces, line);
      pieces := pieces + [line];
    }
  }

  /** The output of any search: each line found with its newline, in order, then the number of matches and of
      errors, both modulo 2^32. */
  lemma OutputReadsBack(f: Found) returns (pieces: seq<seq<byte>>, matches: seq<byte>, errors: seq<byte>)
    ensures Output(f) == Flatten<byte>(pieces) + ("\nMatches: " + matches + "\nErrors: " + errors + "\n")
    ensures |pieces| == |f.lines| && forall k :: 0 <= k < |pieces| ==> pieces[k] == f.lines[k] + ['\n']
    ensures IsDecimal(matches, |f.lines| % 0x1_0000_0000) && IsDecimal(errors, f.errors % 0x1_0000_0000)
  {
    hide Decimal, Printed, IsDecimal, Counters;
    pieces := PrintedLines(f.lines);
    matches, errors := Decimal(Wrap(|f.lines|)), Decimal(Wrap(f.errors));
    DecimalIs(Wrap(|f.lines|));
    DecimalIs(Wrap(f.errors));
    CountersRead(f);
    assert Output(f) == Flatten(pieces) + Counters(f);
  }

  lemma CountersRead(f: Found)
    ensures Counters(f)
         == "\nMatches: " + Decimal(Wrap(|f.lines|)) + "\nErrors: " + Decimal(Wrap(f.errors)) + "\n"
  {
    hide Decimal, Wrap;
    assert MatchesLabel() == "\nMatches: " && ErrorsLabel() == "\nErrors: ";
  }

  // -------------------------------------------- what a scan says about a tree

  /** The lines a complete search prints: the paths of the matching objects, in walk order. */
  ghost function Matches(visits: seq<Visit>, needle: CString): seq<CString> {
    if visits == [] then [] else OwnLine(visits[0].path, visits[0].name, needle) + Matches(visits[1..], needle)
  }

  lemma MatchesCons(w: Visit, rest: seq<Visit>, needle: CString)
    ensures Matches([w] + rest, needle) == OwnLine(w.path, w.name, needle) + Matches(rest, needle)
  {
    hide OwnLine;
    assert ([w] + rest)[1..] == rest;
  }

  lemma {:induction false} MatchesConcat(a: seq<Visit>, b: seq<Visit>, needle: CString)
    ensures Matches(a + b, needle) == Matches(a, needle) + Matches(b, needle)
    decreases |a|
  {
    hide Matches, OwnLine;
    if a == [] {
      MatchesNone(needle);
      assert a + b == b;
    } else {
      var w, rest := a[0], a[1..];
      MatchesConcat(rest, b, needle);
      MatchesCons(w, rest, needle);
      MatchesCons(w, rest + b, needle);
      assert a == [w] + rest;
      assert a + b == [w] + (rest + b);
    }
  }

  lemma MatchesNone(needle: CString)
    ensures Matches([], needle) == []
  {
  }

  /** The matches of one entry and what lies below it, followed by those of the later entries. */
  lemma MatchesStep(node: Node, p: CString, depth: nat, i: nat, needle: CString)
    requires node.Dir? && i < |node.entries|
    ensures var e := node.entries[i]; var q := Join(p, e.name);
            Matches(Below(node, p, depth, i), needle)
            == OwnLine(q, e.name, needle) + Matches(Walk(e.node, q, depth + 1), needle)
               + Matches(Below(node, p, depth, i + 1), needle)
  {
    hide Matches, OwnLine, Walk, Below;
    var e := node.entries[i];
    var q := Join(p, e.name);
    var w := Visit(q, e.name, e.node, depth);
    BelowStep(node, p, depth, i);
    MatchesConcat([w] + Walk(e.node, q, depth + 1), Below(node, p, depth, i + 1), needle);
    MatchesCons(w, Walk(e.node, q, depth + 1), needle);
  }

  /** What was found reports on the lines expected: never others, and all of them when no error was counted. */
  ghost predicate Reports(f: Found, expected: seq<CString>, clean: bool, mostErrors: nat) {
    && Sublist(f.lines, expected)
    && (f.errors == 0 <==> clean)
    && (clean ==> f.lines == expected)
    && f.errors <= mostErrors
  }

  ghost predicate ScanReports(v: Volume, p: CString, needle: CString, node: Node, depth: nat)
    requires depth <= MAX_DEPTH + 1
  {
    Reports(Scan(v, p, needle, depth), Matches(Walk(node, p, depth), needle),
            node.Dir? && Opens(v, p, node) && AllHandled(v, Walk(node, p, depth)),
            1 + |Walk(node, p, depth)|)
  }

  /** One entry and everything below it. */
  ghost predicate EntryReports(v: Volume, p: CString, needle: CString, e: Entry, depth: nat, info: Info)
    requires depth <= MAX_DEPTH
  {
    var q := Join(p, e.name);
    Reports(EntryFound(v, p, needle, depth, e.name, info),
            OwnLine(q, e.name, needle) + Matches(Walk(e.node, q, depth + 1), needle),
            Handled(v, Visit(q, e.name, e.node, depth)) && AllHandled(v, Walk(e.node, q, depth + 1)),
            1 + |Walk(e.node, q, depth + 1)|)
  }

  ghost predicate FromReports(v: Volume, p: CString, needle: CString, node: Node, depth: nat, i: nat)
    requires depth <= MAX_DEPTH && i <= MAX_ENTRIES
  {
    Reports(ScanFrom(v, p, needle, depth, i), Matches(Below(node, p, depth, i), needle),
            Readable(v, p, node, i) && AllHandled(v, Below(node, p, depth, i)),
            1 + |Below(node, p, depth, i)|)
  }

  lemma ErrorReports(expected: seq<CString>, most: nat)
    requires most >= 1
    ensures Reports(ERROR, expected, false, most)
  {
  }

  lemma ReportsAdd(a: Found, expected: seq<CString>, clean: bool, most: nat,
                   b: Found, expected': seq<CString>, clean': bool, most': nat)
    requires Reports(a, expected, clean, most) && Reports(b, expected', clean', most')
    ensures Reports(a.Plus(b), expected + expected', clean && clean', most + most')
  {
    hide Sublist;
    SublistConcat(a.lines, expected, b.lines, expected');
  }

  lemma LineReports(line: seq<CString>)
    ensures Reports(Found(line, 0), line, true, 0)
  {
    SublistSelf(line);
  }

  lemma LineOnly(line: seq<CString>, most: nat)
    ensures Reports(Found(line, 0).Plus(NOTHING), line + [], true, most)
  {
    hide Sublist;
    assert line + [] == line;
    SublistSelf(line);
  }

  lemma {:induction false} ScanMeaning(v: Volume, p: CString, needle: CString, node: Node, depth: nat)
    requires Shows(v, p, node) && depth <= MAX_DEPTH
    ensures ScanReports(v, p, needle, node, depth)
    decreases node, 1
  {
    hide Shows, ScanReports, FromReports, Scan, ScanFrom, Matches, Walk, Below;
    if node.Dir? {
      FromMeaning(v, p, needle, node, depth, 0);
      DirScan(v, p, needle, node, depth);
    } else {
      FileScan(v, p, needle, node, depth);
    }
  }

  lemma DirScan(v: Volume, p: CString, needle: CString, node: Node, depth: nat)
    requires node.Dir? && depth <= MAX_DEPTH && FromReports(v, p, needle, node, depth, 0)
    ensures ScanReports(v, p, needle, node, depth)
  {
    hide Reports, Scan, ScanFrom, Matches, Below, AllHandled, Readable;
    UnfoldScan(v, p, needle, depth);
    if !v.locks(p) || v.examine(p).None? {
      ErrorReports(Matches(Walk(node, p, depth), needle), 1 + |Walk(node, p, depth)|);
    }
  }

  lemma FileScan(v: Volume, p: CString, needle: CString, node: Node, depth: nat)
    requires node.File? && depth <= MAX_DEPTH && Shows(v, p, node)
    ensures ScanReports(v, p, needle, node, depth)
  {
    hide Reports, Scan, ScanFrom, Matches, Below;
    UnfoldScan(v, p, needle, depth);
    Unfold(v, p, needle, depth, 0);
    ErrorReports(Matches(Walk(node, p, depth), needle), 1 + |Walk(node, p, depth)|);
  }

  lemma {:induction false} EntryMeaning(v: Volume, p: CString, needle: CString, e: Entry, depth: nat, info: Info)
    requires Shows(v, Join(p, e.name), e.node) && depth <= MAX_DEPTH && Describes(info, e.node)
    ensures EntryReports(v, p, needle, e, depth, info)
    decreases e.node, 2
  {
    hide *;
    if !Fits(Join(p, e.name)) {
      UnfitEntry(v, p, needle, e, depth, info);
    } else if e.node.File? {
      FileEntry(v, p, needle, e, depth, info);
    } else if depth < MAX_DEPTH {
      ScanMeaning(v, Join(p, e.name), needle, e.node, depth + 1);
      DirEntry(v, p, needle, e, depth, info);
    } else {
      DeepEntry(v, p, needle, e, depth, info);
    }
  }

  lemma UnfitEntry(v: Volume, p: CString, needle: CString, e: Entry, depth: nat, info: Info)
    requires depth <= MAX_DEPTH && !Fits(Join(p, e.name))
    ensures EntryReports(v, p, needle, e, depth, info)
  {
    hide Reports, EntryFound, OwnLine, Matches, Walk, AllHandled, Join, Opens, Fits;
    UnfoldEntry(v, p, needle, depth, e.name, info);
    var q := Join(p, e.name);
    ErrorReports(OwnLine(q, e.name, needle) + Matches(Walk(e.node, q, depth + 1), needle),
                 1 + |Walk(e.node, q, depth + 1)|);
  }

  lemma FileEntry(v: Volume, p: CString, needle: CString, e: Entry, depth: nat, info: Info)
    requires depth <= MAX_DEPTH && Describes(info, e.node) && e.node.File? && Fits(Join(p, e.name))
    ensures EntryReports(v, p, needle, e, depth, info)
  {
    hide EntryFound, OwnLine, Matches, Walk, AllHandled, Join, Opens, Fits, Reports, Found.Plus;
    UnfoldEntry(v, p, needle, depth, e.name, info);
    var q := Join(p, e.name);
    FileWalk(v, q, e.node, depth + 1);
    MatchesNone(needle);
    LineOnly(OwnLine(q, e.name, needle), 1 + |Walk(e.node, q, depth + 1)|);
  }

  lemma FileWalk(v: Volume, p: CString, node: Node, depth: nat)
    requires node.File?
    ensures Walk(node, p, depth) == [] && AllHandled(v, [])
  {
  }

  lemma DirEntry(v: Volume, p: CString, needle: CString, e: Entry, depth: nat, info: Info)
    requires depth < MAX_DEPTH && Describes(info, e.node) && e.node.Dir? && Fits(Join(p, e.name))
    requires ScanReports(v, Join(p, e.name), needle, e.node, depth + 1)
    ensures EntryReports(v, p, needle, e, depth, info)
  {
    hide Reports, Scan, EntryFound, OwnLine, Matches, Walk, AllHandled, Join, Opens, Fits;
    UnfoldEntry(v, p, needle, depth, e.name, info);
    var q := Join(p, e.name);
    LineReports(OwnLine(q, e.name, needle));
    ReportsAdd(Found(OwnLine(q, e.name, needle), 0), OwnLine(q, e.name, needle), true, 0,
               Scan(v, q, needle, depth + 1), Matches(Walk(e.node, q, depth + 1), needle),
               Opens(v, q, e.node) && AllHandled(v, Walk(e.node, q, depth + 1)),
               1 + |Walk(e.node, q, depth + 1)|);
  }

  lemma DeepEntry(v: Volume, p: CString, needle: CString, e: Entry, depth: nat, info: Info)
    requires depth == MAX_DEPTH && Describes(info, e.node) && e.node.Dir? && Fits(Join(p, e.name))
    ensures EntryReports(v, p, needle, e, depth, info)
  {
    hide Reports, EntryFound, OwnLine, Matches, Walk, AllHandled, Join, Opens, Fits;
    UnfoldEntry(v, p, needle, depth, e.name, info);
    var q := Join(p, e.name);
    var below := Matches(Walk(e.node, q, depth + 1), needle);
    LineReports(OwnLine(q, e.name, needle));
    ErrorReports(below, 1 + |Walk(e.node, q, depth + 1)|);
    ReportsAdd(Found(OwnLine(q, e.name, needle), 0), OwnLine(q, e.name, needle), true, 0,
               ERROR, below, false, 1 + |Walk(e.node, q, depth + 1)|);
  }

  lemma {:induction false} FromMeaning(v: Volume, p: CString, needle: CString, node: Node, depth: nat, i: nat)
    requires Shows(v, p, node) && node.Dir? && depth <= MAX_DEPTH
    requires i <= |node.entries| && i <= MAX_ENTRIES
    ensures FromReports(v, p, needle, node, depth, i)
    decreases node, 0, MAX_ENTRIES - i
  {
    hide *;
    if i < MAX_ENTRIES && i < |node.entries| && v.list(p, i).Next? {
      ShownEntry(v, p, node, i);
      EntryMeaning(v, p, needle, node.entries[i], depth, v.list(p, i).info);
      FromMeaning(v, p, needle, node, depth, i + 1);
      AddEntry(v, p, needle, node, depth, i);
    } else {
      EndOfListing(v, p, needle, node, depth, i);
    }
  }

  lemma EndOfListing(v: Volume, p: CString, needle: CString, node: Node, depth: nat, i: nat)
    requires Shows(v, p, node) && node.Dir? && depth <= MAX_DEPTH
    requires i <= |node.entries| && i <= MAX_ENTRIES
    requires i == MAX_ENTRIES || i == |node.entries| || v.list(p, i).Stop?
    ensures FromReports(v, p, needle, node, depth, i)
  {
    hide Shows, ScanFrom, Matches, Below, AllHandled;
    Unfold(v, p, needle, depth, i);
    MatchesNone(needle);
    ShownEnd(v, p, node);
    if i == |node.entries| { EmptyEnd(v, p, node, depth, i); }
    else { ShownEntry(v, p, node, i); }
  }

  lemma ShownEnd(v: Volume, p: CString, node: Node)
    requires Shows(v, p, node) && node.Dir?
    ensures v.list(p, |node.entries|).Stop?
  {
  }

  lemma EmptyEnd(v: Volume, p: CString, node: Node, depth: nat, i: nat)
    requires node.Dir? && i == |node.entries|
    ensures Below(node, p, depth, i) == [] && AllHandled(v, [])
  {
  }

  lemma AddEntry(v: Volume, p: CString, needle: CString, node: Node, depth: nat, i: nat)
    requires node.Dir? && depth <= MAX_DEPTH && i < |node.entries| && i < MAX_ENTRIES
    requires v.list(p, i).Next? && v.list(p, i).name == node.entries[i].name
    requires EntryReports(v, p, needle, node.entries[i], depth, v.list(p, i).info)
    requires FromReports(v, p, needle, node, depth, i + 1)
    ensures FromReports(v, p, needle, node, depth, i)
  {
    hide Reports, ScanFrom, EntryFound, Matches, OwnLine, Walk, Below, AllHandled, Handled, Join, Readable;
    var e, info := node.entries[i], v.list(p, i).info;
    var q := Join(p, e.name);
    Unfold(v, p, needle, depth, i);
    ReadableStep(v, p, node, i);
    MatchesStep(node, p, depth, i, needle);
    HandledStep(v, node, p, depth, i);
    BelowStep(node, p, depth, i);
    ReportsAdd(EntryFound(v, p, needle, depth, e.name, info),
               OwnLine(q, e.name, needle) + Matches(Walk(e.node, q, depth + 1), needle),
               Handled(v, Visit(q, e.name, e.node, depth)) && AllHandled(v, Walk(e.node, q, depth + 1)),
               1 + |Walk(e.node, q, depth + 1)|,
               ScanFrom(v, p, needle, depth, i + 1), Matches(Below(node, p, depth, i + 1), needle),
               Readable(v, p, node, i + 1) && AllHandled(v, Below(node, p, depth, i + 1)),
               1 + |Below(node, p, depth, i + 1)|);
  }

  /** In every run the printed lines are some of the expected ones, in order; a directory search without
      errors, which is exactly one in which everything could be read, prints all of them. */
  lemma CleanRunIsExact(v: Volume, p: CString, needle: CString, node: Node)
    requires Shows(v, p, node)
    ensures var f, expected := Scan(v, p, needle, 0), Matches(Walk(node, p, 0), needle);
            && Sublist(f.lines, expected)
            && (f.errors == 0 <==> node.Dir? && Opens(v, p, node) && AllHandled(v, Walk(node, p, 0)))
            && (f.errors == 0 ==> f.lines == expected)
            && f.errors <= 1 + |Walk(node, p, 0)|
  {
    hide Shows, Scan, Matches, Walk, AllHandled, Sublist, Opens;
    ScanMeaning(v, p, needle, node, 0);
  }

  lemma {:induction false} MatchesBounded(visits: seq<Visit>, needle: CString)
    ensures |Matches(visits, needle)| <= |visits|
  {
    if visits != [] { MatchesBounded(visits[1..], needle); }
  }

  /** The output of a complete search, in unbounded numbers. */
  ghost function TrueOutput(expected: seq<CString>): seq<byte> {
    Printed(expected) + ((MatchesLabel() + Decimal(|expected|)) + (ErrorsLabel() + Decimal(0)) + ['\n'])
  }

  lemma ExactOutput(f: Found)
    requires |f.lines| <= MAX_ULONG && f.errors == 0
    ensures Output(f) == TrueOutput(f.lines)
  {
    hide Decimal, Printed, MatchesLabel, ErrorsLabel;
  }

  /** With fewer than 2^32 - 1 objects below the root no counter can wrap around, so exit code 0 itself
      means that the search was complete, and then the whole output is that of the tree. */
  lemma ExitZeroIsExact(v: Volume, p: CString, needle: CString, node: Node)
    requires Shows(v, p, node) && |Walk(node, p, 0)| < MAX_ULONG
    ensures var f, expected := Scan(v, p, needle, 0), Matches(Walk(node, p, 0), needle);
            && (Wrap(f.errors) == 0 <==> node.Dir? && Opens(v, p, node) && AllHandled(v, Walk(node, p, 0)))
            && (Wrap(f.errors) == 0 ==> Output(f) == TrueOutput(expected))
  {
    hide Shows, Scan, Matches, Walk, AllHandled, Sublist, Opens, Output, TrueOutput;
    CleanRunIsExact(v, p, needle, node);
    MatchesBounded(Walk(node, p, 0), needle);
    var f := Scan(v, p, needle, 0);
    if Wrap(f.errors) == 0 { ExactOutput(f); }
  }

  lemma {:induction false} MatchesAreVisited(visits: seq<Visit>, needle: CString, line: CString)
    requires line in Matches(visits, needle)
    ensures exists k :: 0 <= k < |visits| && visits[k].path == line
  {
    if line !in OwnLine(visits[0].path, visits[0].name, needle) {
      MatchesAreVisited(visits[1..], needle, line);
      var k :| 0 <= k < |visits[1..]| && visits[1..][k].path == line;
      assert visits[k + 1].path == line;
    }
  }

  ghost predicate Distinct<T>(s: seq<T>) {
    forall j, k :: 0 <= j < k < |s| ==> s[j] != s[k]
  }

  /** No path is printed twice when the walked paths are all different. */
  lemma {:induction false} MatchesDistinct(visits: seq<Visit>, needle: CString)
    requires forall j, k :: 0 <= j < k < |visits| ==> visits[j].path != visits[k].path
    ensures Distinct(Matches(visits, needle))
  {
    hide Contains;
    if visits != [] {
      var rest := Matches(visits[1..], needle);
      MatchesDistinct(visits[1..], needle);
      forall k | 0 <= k < |rest| ensures rest[k] != visits[0].path {
        MatchesAreVisited(visits[1..], needle, rest[k]);
      }
    }
  }

  // ---------------------------------------------------------- the whole program

  /** Find from its arguments to its exit code.  All locks are given back and at most 17 are held at once, whatever
      DOS answers.  If a steady DOS shows a tree of fewer than 2^32 - 1 objects, exit code 0 means that exactly
      the matching paths and their number were printed. */
  method Program(argv: seq<CString>, dos: Dos, out: Sink) returns (code: int, ghost f: Found)
    requires dos.Valid() && dos.held == {} && dos.peak == 0
    modifies dos, out
    ensures dos.held == {} && dos.peak <= 17
    ensures code == 0 || code == 5 || code == 10
    ensures code == 10 <==> |argv| < 2 || |argv| > 3
    ensures code == 10 ==> out.written == old(out.written)
    ensures code != 10 ==>
      && out.Appended(old(out.written), old(out.failed), Output(f))
      && (code == 5 <==> Wrap(f.errors) != 0)
      && (dos.Steady() ==> f == Scan(dos.volume, PathArgument(argv, 2), argv[1], 0))
    ensures forall node :: code != 10 && dos.Steady() && ShowsSmall(dos.volume, PathArgument(argv, 2), node) ==>
      var v, p, needle := dos.volume, PathArgument(argv, 2), argv[1];
      && (code == 0 <==> node.Dir? && Opens(v, p, node) && AllHandled(v, Walk(node, p, 0)))
      && (code == 0 ==>
           out.Appended(old(out.written), old(out.failed), TrueOutput(Matches(Walk(node, p, 0), needle))))
  {
    hide Scan, Output, TrueOutput, Matches, Opens, AllHandled, Walk, Wrap, ShowsSmall, Dos.Steady;
    f := NOTHING;
    if |argv| < 2 || |argv| > 3 { return 10, f; }
    var needle := argv[1];
    var p := if |argv| == 3 then argv[2] else [];
    var slots := new Slots();
    var path := NewPath(p);
    var find := new Find(dos, slots, needle, out);
    code := find.Run(path, p);
    f := find.found;
    forall node | dos.Steady() && ShowsSmall(dos.volume, p, node)
      ensures code == 0 <==> node.Dir? && Opens(dos.volume, p, node) && AllHandled(dos.volume, Walk(node, p, 0))
      ensures code == 0 ==> Output(f) == TrueOutput(Matches(Walk(node, p, 0), needle))
    {
      SmallShown(dos.volume, p, node);
      ExitZeroIsExact(dos.volume, p, needle, node);
    }
  }
}
