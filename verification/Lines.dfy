/** Head and Tail: the first and the last lines of a file, read in chunks. */
module Lines {
  import opened Bytes
  import opened Numbers
  import opened Streams

  const TAIL_BUFFER := 512
  const HEAD_BUFFER := 256
  const DEFAULT_LINES := 10

  // ----------------------------------------------------------- specification

  ghost function Newlines(s: seq<byte>): nat {
    if s == [] then 0 else Newlines(s[..|s| - 1]) + if s[|s| - 1] == '\n' then 1 else 0
  }

  lemma {:induction false} NewlinesConcat(a: seq<byte>, b: seq<byte>)
    ensures Newlines(a + b) == Newlines(a) + Newlines(b)
  {
    if b == [] {
      assert a + b == a;
    } else {
      NewlinesConcat(a, b[..|b| - 1]);
      assert (a + b)[..|a + b| - 1] == a + b[..|b| - 1];
    }
  }

  lemma NewlinesSplit(s: seq<byte>, i: nat, j: nat)
    requires i <= j <= |s|
    ensures Newlines(s[..j]) == Newlines(s[..i]) + Newlines(s[i..j])
    ensures Newlines(s[i..]) == Newlines(s[i..j]) + Newlines(s[j..])
  {
    assert s[..j] == s[..i] + s[i..j];
    assert s[i..] == s[i..j] + s[j..];
    NewlinesConcat(s[..i], s[i..j]);
    NewlinesConcat(s[i..j], s[j..]);
  }

  lemma NewlinesOne(s: seq<byte>, i: nat)
    requires i < |s|
    ensures Newlines(s[i..i + 1]) == if s[i] == '\n' then 1 else 0
  {
    assert s[i..i + 1] == [s[i]];
  }

  /** h is the shortest prefix with k newlines, or the whole file when it has fewer. */
  ghost predicate IsHead(s: seq<byte>, k: nat, h: seq<byte>) {
    && h <= s
    && Newlines(h) <= k
    && (|h| < |s| ==> Newlines(h) == k)
    && (h != [] ==> Newlines(h[..|h| - 1]) < k)
  }

  /** t is the longest suffix with at most k newlines. */
  ghost predicate IsTail(s: seq<byte>, k: nat, t: seq<byte>) {
    && |t| <= |s| && t == s[|s| - |t|..]
    && Newlines(t) <= k
    && (|t| < |s| ==> Newlines(s[|s| - |t| - 1..]) > k)
  }

  lemma NewlinesMonotone(s: seq<byte>, i: nat, j: nat)
    requires i <= j <= |s|
    ensures Newlines(s[..i]) <= Newlines(s[..j]) && Newlines(s[i..]) >= Newlines(s[j..])
    ensures Newlines(s[..i]) + Newlines(s[i..]) == Newlines(s)
  {
    hide Newlines;
    NewlinesSplit(s, i, j);
    NewlinesSplit(s, 0, i);
    assert s[..i] == s[0..i] && s == s[0..];
  }

  lemma HeadsNotNested(s: seq<byte>, k: nat, h: seq<byte>, h': seq<byte>)
    requires IsHead(s, k, h) && IsHead(s, k, h')
    ensures |h'| <= |h|
  {
    hide Newlines;
    if |h| < |h'| {
      assert h == s[..|h|] && h'[..|h'| - 1] == s[..|h'| - 1];
      NewlinesMonotone(s, |h|, |h'| - 1);
      assert false;
    }
  }

  lemma HeadUnique(s: seq<byte>, k: nat, h: seq<byte>, h': seq<byte>)
    requires IsHead(s, k, h) && IsHead(s, k, h')
    ensures h == h'
  {
    HeadsNotNested(s, k, h, h');
    HeadsNotNested(s, k, h', h);
    hide Newlines;
    assert h == s[..|h|] && h' == s[..|h|];
  }

  lemma TailsNotNested(s: seq<byte>, k: nat, t: seq<byte>, t': seq<byte>)
    requires IsTail(s, k, t) && IsTail(s, k, t')
    ensures |t'| <= |t|
  {
    hide Newlines;
    if |t| < |t'| {
      NewlinesMonotone(s, |s| - |t'|, |s| - |t| - 1);
      assert false;
    }
  }

  lemma TailUnique(s: seq<byte>, k: nat, t: seq<byte>, t': seq<byte>)
    requires IsTail(s, k, t) && IsTail(s, k, t')
    ensures t == t'
  {
    TailsNotNested(s, k, t, t');
    TailsNotNested(s, k, t', t);
  }

  /** Head's first k lines and Tail's last n lines make up a file with k + n newlines. */
  lemma HeadThenTail(s: seq<byte>, k: nat, n: nat, h: seq<byte>, t: seq<byte>)
    requires Newlines(s) == k + n && n > 0
    requires IsHead(s, k, h) && IsTail(s, n, t)
    ensures h + t == s
  {
    hide Newlines;
    var e, p := |h|, |s| - |t|;
    assert h == s[..e];
    NewlinesMonotone(s, e, |s|);
    assert s[..|s|] == s;
    if p < e {
      assert h[..e - 1] == s[..e - 1];
      NewlinesMonotone(s, p, e - 1);
      assert false;
    } else if p > e {
      NewlinesMonotone(s, e, p - 1);
      assert false;
    }
    assert s == s[..e] + s[e..];
  }

  /** With k = N the tail count is 0 and Tail prints nothing: Head alone gives the file back
      exactly when the file is empty or ends in a newline. */
  lemma HeadOfAllLines(s: seq<byte>, h: seq<byte>)
    requires IsHead(s, Newlines(s), h)
    ensures h == s <==> s == [] || s[|s| - 1] == '\n'
  {
    var e := |h|;
    assert s == s[..|s|] && h == s[..e];
    if e < |s| {
      NewlinesSplit(s, e, |s| - 1);
      NewlinesSplit(s, |s| - 1, |s|);
      NewlinesOne(s, |s| - 1);
      assert s[|s| - 1..|s|] == s[|s| - 1..|s| - 1 + 1];
    } else if s != [] {
      assert h == s;
    }
  }

  // ---------------------------------------------------- in terms of the lines

  /** A line: its last character is its only newline. */
  ghost predicate IsLine(p: seq<byte>) {
    p != [] && p[|p| - 1] == '\n' && '\n' !in p[..|p| - 1]
  }

  /** A file cut after each of its newlines; the last part, which may be empty, has none. */
  ghost predicate IsCut(s: seq<byte>, parts: seq<seq<byte>>) {
    && parts != [] && Flatten(parts) == s
    && (forall k :: 0 <= k < |parts| - 1 ==> IsLine(parts[k]))
    && '\n' !in parts[|parts| - 1]
  }

  /** Every file can be cut into its lines. */
  lemma {:induction false} Cut(s: seq<byte>) returns (parts: seq<seq<byte>>)
    ensures IsCut(s, parts)
  {
    hide IsCut;
    if s == [] {
      EmptyCut();
      parts := [[]];
    } else {
      var n := |s| - 1;
      parts := Cut(s[..n]);
      parts := CutMore(s[..n], parts, s[n]);
      assert s == s[..n] + [s[n]];
    }
  }

  lemma EmptyCut()
    ensures IsCut([], [[]])
  {
    FlattenSnoc<byte>([], []);
  }

  lemma CutMore(s: seq<byte>, parts: seq<seq<byte>>, c: byte) returns (more: seq<seq<byte>>)
    requires IsCut(s, parts)
    ensures IsCut(s + [c], more)
  {
    hide Flatten;
    var lines, last := parts[..|parts| - 1], parts[|parts| - 1];
    var longer := last + [c];
    assert parts == lines + [last];
    FlattenSnoc(lines, last);
    FlattenSnoc(lines, longer);
    Assoc(Flatten(lines), last, [c]);
    more := lines + [longer];
    if c == '\n' {
      assert longer[..|last|] == last;
      FlattenSnoc(more, []);
      more := more + [[]];
    }
  }

  lemma {:induction false} NoNewlines(a: seq<byte>)
    requires '\n' !in a
    ensures Newlines(a) == 0
  {
    if a != [] {
      NoNewlines(a[..|a| - 1]);
      assert a[|a| - 1] in a;
    }
  }

  lemma {:induction false} NewlinesOfLines(parts: seq<seq<byte>>)
    requires forall k :: 0 <= k < |parts| ==> IsLine(parts[k])
    ensures Newlines(Flatten(parts)) == |parts|
    ensures parts != [] ==> Flatten(parts) != [] && Newlines(Flatten(parts)[..|Flatten(parts)| - 1]) == |parts| - 1
    ensures parts != [] ==> Flatten(parts)[|Flatten(parts)| - 1] == '\n'
  {
    if parts != [] {
      var n := |parts| - 1;
      var before, line := Flatten(parts[..n]), parts[n];
      NewlinesOfLines(parts[..n]);
      assert parts == parts[..n] + [line];
      FlattenSnoc(parts[..n], line);
      hide Flatten;
      var rest := line[..|line| - 1];
      NoNewlines(rest);
      NewlinesConcat(before, rest);
      assert (before + line)[..|before + line| - 1] == before + rest;
    }
  }

  lemma CutAt(s: seq<byte>, parts: seq<seq<byte>>, k: nat)
    requires IsCut(s, parts) && k <= |parts|
    ensures s == Flatten(parts[..k]) + Flatten(parts[k..])
    ensures k < |parts| ==> Newlines(Flatten(parts[..k])) == k && Newlines(Flatten(parts[k..])) == |parts| - 1 - k
  {
    hide Newlines, IsLine, Flatten;
    assert parts == parts[..k] + parts[k..];
    FlattenAppend(parts[..k], parts[k..]);
    if k < |parts| {
      NewlinesOfLines(parts[..k]);
      var rest := parts[k..];
      assert rest[|rest| - 1] == parts[|parts| - 1];
      forall j | 0 <= j < |rest| - 1 ensures IsLine(rest[j]) { assert rest[j] == parts[k + j]; }
      NewlinesOfRest(rest);
    }
  }

  lemma NewlinesOfRest(rest: seq<seq<byte>>)
    requires rest != [] && (forall k :: 0 <= k < |rest| - 1 ==> IsLine(rest[k])) && '\n' !in rest[|rest| - 1]
    ensures Newlines(Flatten(rest)) == |rest| - 1
  {
    hide Newlines, IsLine, Flatten;
    var n := |rest| - 1;
    NewlinesOfLines(rest[..n]);
    assert rest == rest[..n] + [rest[n]];
    FlattenSnoc(rest[..n], rest[n]);
    NoNewlines(rest[n]);
    NewlinesConcat(Flatten(rest[..n]), rest[n]);
  }

  /** Head prints the first lines: exactly the parts of the cut file up to the wanted number. */
  lemma HeadLines(s: seq<byte>, parts: seq<seq<byte>>, k: nat, h: seq<byte>)
    requires IsCut(s, parts)
    ensures IsHead(s, k, h) <==> h == Flatten(parts[..if k < |parts| then k else |parts|])
  {
    var g := Flatten(parts[..if k < |parts| then k else |parts|]);
    HeadOfCut(s, parts, k);
    hide IsHead;
    if IsHead(s, k, h) { HeadUnique(s, k, h, g); }
  }

  lemma HeadOfCut(s: seq<byte>, parts: seq<seq<byte>>, k: nat)
    requires IsCut(s, parts)
    ensures IsHead(s, k, Flatten(parts[..if k < |parts| then k else |parts|]))
  {
    hide Newlines, IsLine, Flatten;
    if k < |parts| {
      CutAt(s, parts, k);
      NewlinesOfLines(parts[..k]);
    } else {
      assert parts[..|parts|] == parts && s[..|s|] == s;
      CutAt(s, parts, 0);
      assert parts[0..] == parts;
      if s != [] { NewlinesMonotone(s, |s| - 1, |s|); }
    }
  }

  /** Tail prints the last lines: one part more than the wanted number, for the text after the last newline. */
  lemma TailLines(s: seq<byte>, parts: seq<seq<byte>>, k: nat, t: seq<byte>)
    requires IsCut(s, parts)
    ensures IsTail(s, k, t) <==> t == Flatten(parts[if k + 1 < |parts| then |parts| - k - 1 else 0..])
  {
    var g := Flatten(parts[if k + 1 < |parts| then |parts| - k - 1 else 0..]);
    TailOfCut(s, parts, k);
    hide IsTail;
    if IsTail(s, k, t) { TailUnique(s, k, t, g); }
  }

  lemma TailOfCut(s: seq<byte>, parts: seq<seq<byte>>, k: nat)
    requires IsCut(s, parts)
    ensures IsTail(s, k, Flatten(parts[if k + 1 < |parts| then |parts| - k - 1 else 0..]))
  {
    hide Newlines, IsLine, Flatten;
    var m := if k + 1 < |parts| then |parts| - k - 1 else 0;
    CutAt(s, parts, m);
    var t := Flatten(parts[m..]);
    if m > 0 {
      NewlinesOfLines(parts[..m]);
      var before := Flatten(parts[..m]);
      var at := |before| - 1;
      CountOne(s, at);
      assert s[at] == '\n' && s[at + 1..] == t;
    } else {
      assert parts[..0] == [];
      NothingBefore(s, parts);
    }
  }

  lemma NothingBefore(s: seq<byte>, parts: seq<seq<byte>>)
    ensures Flatten<byte>([]) == [] && parts[0..] == parts && s[0..] == s
  {
  }

  /** The line count the arguments ask for, or -1 when they are refused. */
  ghost function RequestedLines(argv: seq<CString>): int {
    if |argv| == 2 then 10
    else if |argv| == 3 && IsCount(argv[2]) then Value(argv[2], 10)
    else -1
  }

  method ReadArguments(argv: seq<CString>) returns (wanted: int)
    ensures wanted == RequestedLines(argv)
    ensures -1 <= wanted <= COUNT_LIMIT
  {
    if |argv| < 2 || |argv| > 3 { return -1; }
    wanted := DEFAULT_LINES;
    if |argv| == 3 { wanted := ParseLineCount(argv[2]); }
  }

  /** Any part of a chunk written after the bytes before it is a prefix of the file. */
  lemma ChunkStaysInside(base: seq<byte>, s: seq<byte>, p: nat, e: nat, written: seq<byte>)
    requires p <= e <= |s| && base + s[..p] <= written <= base + s[..p] + s[p..e]
    ensures base <= written <= base + s
    ensures written == base + s[..p] + s[p..e] ==> written == base + s[..e] && written[|base|..] == s[..e]
  {
    assert s == s[..p] + s[p..e] + s[e..];
    assert s[..e] == s[..p] + s[p..e];
  }

  /** Writes one chunk of s after the bytes before it. */
  method PutChunk(out: Sink, buffer: array<byte>, count: nat, ghost base: seq<byte>, ghost s: seq<byte>, ghost p: nat)
    returns (ok: bool)
    requires count <= buffer.Length && p + count <= |s| && buffer[..count] == s[p..p + count]
    requires out.written == base + s[..p]
    modifies out
    ensures base <= out.written <= base + s
    ensures ok ==> out.written == base + s[..p + count] && out.written[|base|..] == s[..p + count]
    ensures ok ==> out.failed == old(out.failed)
    ensures !ok ==> out.failed
  {
    var wrote := out.Write(buffer[..count]);
    ChunkStaysInside(base, s, p, p + count, out.written);
    ok := wrote == count;
  }

  // -------------------------------------------------------------------- Head

  /** Head's byte loop over one chunk: where the last wanted newline stands, or -1. */
  method CountLines(buffer: array<byte>, got: nat, lines0: nat, wanted: nat, ghost s: seq<byte>, ghost p: nat)
    returns (lines: nat, stop: int)
    requires got <= buffer.Length && p + got <= |s| && buffer[..got] == s[p..p + got]
    requires lines0 == Newlines(s[..p]) < wanted
    ensures -1 <= stop < got
    ensures stop < 0 ==> lines == Newlines(s[..p + got]) < wanted
    ensures stop >= 0 ==> IsHead(s, wanted, s[..p + stop + 1])
  {
    hide Newlines, IsHead;
    ghost var chunk := buffer[..got];
    lines := lines0;
    var i := 0;
    while i < got
      invariant 0 <= i <= got && lines == Newlines(s[..p + i]) < wanted
    {
      assert buffer[i] == chunk[i] == s[p + i];
      CountOne(s, p + i);
      if buffer[i] == '\n' {
        lines := lines + 1;
        if lines >= wanted {
          LineEndIsHead(s, p + i, wanted);
          return lines, i;
        }
      }
      i := i + 1;
    }
    stop := -1;
  }

  /** Head's loop: stops inside the chunk that holds the last wanted newline. */
  method CopyHead(file: InFile, out: Sink, wanted: nat) returns (code: int)
    requires 1 <= wanted
    requires file.pos == 0 && !file.failed && !out.failed
    modifies file, out
    ensures old(out.written) <= out.written <= old(out.written) + file.contents
    ensures code == 0 ==> IsHead(file.contents, wanted, out.written[|old(out.written)|..])
    ensures code == (if file.failed || out.failed then 5 else 0)
  {
    hide Newlines, IsHead;
    var buffer := new byte[HEAD_BUFFER];
    var lines := 0;
    var got := 0;
    ghost var s, base := file.contents, out.written;
    ghost var p := 0;
    NoLines(s);
    while lines < wanted
      invariant p == file.pos <= |s| && !file.failed && !out.failed
      invariant out.written == base + s[..p]
      invariant lines == Newlines(s[..p]) < wanted
      decreases |s| - p
    {
      got := file.Read(buffer, HEAD_BUFFER);
      if got <= 0 { break; }
      ghost var chunk := buffer[..got];
      var stop;
      lines, stop := CountLines(buffer, got, lines, wanted, s, p);
      var count := if stop >= 0 then stop + 1 else got;
      PartOfSlice(s, p, got, count, chunk, buffer[..count]);
      var ok := PutChunk(out, buffer, count, base, s, p);
      if !ok { return 5; }
      if stop >= 0 { return 0; }
      p := file.pos;
    }
    if got == 0 { WholeFileIsHead(s, p, wanted, base); }
    code := if got < 0 then 5 else 0;
  }

  lemma PartOfSlice(s: seq<byte>, p: nat, got: nat, count: nat, chunk: seq<byte>, part: seq<byte>)
    requires count <= got && p + got <= |s| && chunk == s[p..p + got] && part == chunk[..count]
    ensures part == s[p..p + count]
  {
  }

  lemma NoLines(s: seq<byte>)
    ensures Newlines(s[..0]) == 0 && Newlines(s[|s|..]) == 0
  {
  }

  lemma WholeFileIsTail(s: seq<byte>, pos: nat, k: nat)
    requires pos <= |s| && Newlines(s[pos..]) <= k
    ensures pos == 0 ==> IsTail(s, k, s[0..])
  {
    hide Newlines;
    assert s[0..] == s;
  }

  lemma CountOne(s: seq<byte>, p: nat)
    requires p < |s|
    ensures Newlines(s[..p + 1]) == Newlines(s[..p]) + if s[p] == '\n' then 1 else 0
    ensures Newlines(s[p..]) == Newlines(s[p + 1..]) + if s[p] == '\n' then 1 else 0
  {
    NewlinesSplit(s, p, p + 1);
    NewlinesOne(s, p);
  }

  lemma WholeFileIsHead(s: seq<byte>, p: nat, k: nat, base: seq<byte>)
    requires p == |s| && Newlines(s[..p]) < k
    ensures IsHead(s, k, (base + s[..p])[|base|..])
  {
    assert (base + s[..p])[|base|..] == s[..p] == s;
    if s != [] { CountOne(s, |s| - 1); }
  }

  lemma LineEndIsHead(s: seq<byte>, p: nat, k: nat)
    requires p < |s| && s[p] == '\n' && Newlines(s[..p]) == k - 1
    ensures IsHead(s, k, s[..p + 1])
  {
    CountOne(s, p);
    assert s[..p + 1][..p] == s[..p];
  }

  /** Head, on the file its first argument names, or null when that cannot be opened. */
  method Head(argv: seq<CString>, file: InFile?, out: Sink) returns (code: int)
    requires file != null ==> file.pos == 0 && !file.failed
    requires !out.failed
    modifies file, out
    ensures RequestedLines(argv) < 0 <==> code == 10
    ensures code == 0 && RequestedLines(argv) > 0 ==>
      file != null && old(out.written) <= out.written
      && IsHead(file.contents, RequestedLines(argv), out.written[|old(out.written)|..])
    ensures RequestedLines(argv) == 0 ==> code == 0 && out.written == old(out.written)
    ensures RequestedLines(argv) > 0 ==> code == if file == null || file.failed || out.failed then 5 else 0
    ensures code == 10 || file == null ==> out.written == old(out.written)
    ensures code == 5 && file != null ==> old(out.written) <= out.written <= old(out.written) + file.contents
  {
    var wanted := ReadArguments(argv);
    if wanted < 0 { return 10; }
    if wanted == 0 { return 0; }
    if file == null { return 5; }
    code := CopyHead(file, out, wanted);
  }

  // -------------------------------------------------------------------- Tail

  /** Tail's byte loop over one chunk, from its end: the newline that is one too many, or -1. */
  method CountBack(buffer: array<byte>, got: nat, lines0: nat, wanted: nat, ghost s: seq<byte>, ghost pos: nat)
    returns (lines: nat, i: int)
    requires got <= buffer.Length && pos + got <= |s| && buffer[..got] == s[pos..pos + got]
    requires lines0 == Newlines(s[pos + got..]) <= wanted
    ensures -1 <= i < got
    ensures i < 0 ==> lines == Newlines(s[pos..]) <= wanted
    ensures i >= 0 ==> IsTail(s, wanted, s[pos + i + 1..])
  {
    hide Newlines;
    ghost var chunk := buffer[..got];
    lines := lines0;
    i := got - 1;
    while i >= 0
      invariant -1 <= i < got && lines == Newlines(s[pos + i + 1..]) <= wanted
    {
      assert buffer[i] == chunk[i] == s[pos + i];
      CountOne(s, pos + i);
      if buffer[i] == '\n' {
        lines := lines + 1;
        if lines > wanted {
          return;
        }
      }
      i := i - 1;
    }
  }

  /** Tail's backward scan: the start of the longest suffix with at most `wanted` newlines. */
  method FindTailStart(file: InFile, buffer: array<byte>, end: LONG, wanted: nat) returns (ok: bool, pos: LONG)
    requires buffer.Length == TAIL_BUFFER && end == |file.contents| && file.pos <= |file.contents|
    requires !file.failed
    modifies file, buffer
    ensures file.pos <= |file.contents|
    ensures ok ==> 0 <= pos <= end && IsTail(file.contents, wanted, file.contents[pos..]) && !file.failed
    ensures !ok ==> file.failed || file.short
  {
    hide Newlines, IsTail;
    pos := end;
    var lines := 0;
    ghost var s := file.contents;
    NoLines(s);
    while pos > 0 && lines <= wanted
      invariant 0 <= pos <= end && !file.failed && file.pos <= |s|
      invariant lines == Newlines(s[pos..]) <= wanted
      decreases pos
    {
      var chunk := if pos > TAIL_BUFFER then TAIL_BUFFER else pos;
      pos := pos - chunk;
      var r := file.SeekTo(pos);
      if r < 0 { return false, 0; }
      var got := file.Read(buffer, chunk);
      if got != chunk { return false, 0; }
      var i;
      lines, i := CountBack(buffer, got, lines, wanted, s, pos);
      if i >= 0 {
        pos := pos + i + 1;
        return true, pos;
      }
    }
    WholeFileIsTail(s, pos, wanted);
    pos := 0;
    ok := true;
  }

  /** Tail's copy loop. */
  method CopyRest(file: InFile, buffer: array<byte>, out: Sink, ghost start: nat) returns (code: int)
    requires buffer.Length == TAIL_BUFFER && start == file.pos <= |file.contents|
    requires !file.failed && !out.failed
    modifies file, buffer, out
    ensures old(out.written) <= out.written <= old(out.written) + file.contents[start..]
    ensures code == 0 ==> out.written == old(out.written) + file.contents[start..]
    ensures code == (if file.failed || out.failed then 5 else 0)
  {
    ghost var s, base := file.contents[start..], out.written;
    var got := 1;
    while true
      invariant start <= file.pos <= |file.contents| && !file.failed && !out.failed
      invariant out.written == base + s[..file.pos - start]
      decreases |file.contents| - file.pos
    {
      ghost var p := file.pos - start;
      got := file.Read(buffer, TAIL_BUFFER);
      if got <= 0 { break; }
      assert s[p..p + got] == buffer[..got];
      var ok := PutChunk(out, buffer, got, base, s, p);
      if !ok { return 5; }
    }
    if got == 0 { assert s[..|s|] == s; }
    code := if got < 0 then 5 else 0;
  }

  /** Tail, on the file its first argument names, or null when that cannot be opened. */
  method Tail(argv: seq<CString>, file: InFile?, out: Sink) returns (code: int)
    requires file != null ==> file.pos == 0 && !file.failed && !file.short
    requires !out.failed
    modifies file, out
    ensures RequestedLines(argv) < 0 <==> code == 10
    ensures code == 0 && RequestedLines(argv) > 0 ==>
      file != null && old(out.written) <= out.written
      && IsTail(file.contents, RequestedLines(argv), out.written[|old(out.written)|..])
    ensures RequestedLines(argv) == 0 ==> code == 0 && out.written == old(out.written)
    ensures code == 0 || code == 5 || code == 10
    ensures RequestedLines(argv) > 0 && (file == null || file.failed || out.failed) ==> code == 5
    ensures code == 5 ==> file == null || file.failed || out.failed || file.short
    ensures code == 10 || file == null ==> out.written == old(out.written)
    ensures RequestedLines(argv) > 0 && file != null ==>
      old(out.written) <= out.written
      && forall t :: IsTail(file.contents, RequestedLines(argv), t) ==> out.written <= old(out.written) + t
  {
    var wanted := ReadArguments(argv);
    if wanted < 0 { return 10; }
    if wanted == 0 { return 0; }
    if file == null { return 5; }
    var buffer := new byte[TAIL_BUFFER];
    var r := file.SeekEnd();
    if r < 0 { return 5; }
    var end := file.Tell();
    if end < 0 { return 5; }
    var ok, pos := FindTailStart(file, buffer, end, wanted);
    if !ok { return 5; }
    forall t | IsTail(file.contents, wanted, t) ensures t == file.contents[pos..] {
      TailUnique(file.contents, wanted, t, file.contents[pos..]);
    }
    r := file.SeekTo(pos);
    if r < 0 { return 5; }
    code := CopyRest(file, buffer, out, pos);
  }
}
