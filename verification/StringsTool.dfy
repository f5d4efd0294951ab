/** Strings: every run of printable bytes of a minimum length, whatever the read sizes. */
module StringsTool {
  import opened Bytes
  import opened Numbers
  import opened Streams

  const READ_BYTES := 256
  const STRING_BYTES := 256
  const DEFAULT_MINIMUM := 4

  predicate Printable(c: char) {
    32 <= c as int <= 126
  }

  // ----------------------------------------------------------- specification

  /** A run is the position interval of a maximal stretch of printable bytes. */
  datatype Run = Run(first: nat, end: nat)

  ghost predicate IsRun(s: seq<byte>, r: Run) {
    && r.first < r.end <= |s|
    && (forall k :: r.first <= k < r.end ==> Printable(s[k]))
    && (r.first > 0 ==> !Printable(s[r.first - 1]))
    && (r.end < |s| ==> !Printable(s[r.end]))
  }

  /** The end of the printable stretch that starts at i. */
  ghost function StretchEnd(s: seq<byte>, i: nat): (e: nat)
    requires i <= |s|
    ensures i <= e <= |s|
    decreases |s| - i
  {
    if i < |s| && Printable(s[i]) then StretchEnd(s, i + 1) else i
  }

  /** The runs that start at or after i and have at least the minimum length, in order. */
  ghost function Runs(s: seq<byte>, i: nat, minimum: nat): seq<Run>
    requires i <= |s|
    decreases |s| - i
  {
    if i == |s| then []
    else if !Printable(s[i]) then Runs(s, i + 1, minimum)
    else
      var e := StretchEnd(s, i + 1);
      (if e - i >= minimum then [Run(i, e)] else []) + Runs(s, e, minimum)
  }

  ghost function Text(s: seq<byte>, r: Run): seq<byte> {
    if r.first <= r.end <= |s| then s[r.first..r.end] else []
  }

  /** The listing of some runs: the text of each, followed by a newline. */
  ghost function Listing(s: seq<byte>, runs: seq<Run>): seq<byte> {
    if runs == [] then []
    else
      Text(s, runs[0]) + ['\n'] + Listing(s, runs[1..])
  }

  ghost function Report(s: seq<byte>, i: nat, minimum: nat): seq<byte>
    requires i <= |s|
  {
    Listing(s, Runs(s, i, minimum))
  }

  lemma {:induction false} StretchIsPrintable(s: seq<byte>, i: nat)
    requires i <= |s|
    ensures var e := StretchEnd(s, i);
            && (forall k :: i <= k < e ==> Printable(s[k])) && (e < |s| ==> !Printable(s[e]))
    decreases |s| - i
  {
    if i < |s| && Printable(s[i]) { StretchIsPrintable(s, i + 1); }
  }

  lemma {:induction false} StretchEndsAt(s: seq<byte>, i: nat, e: nat)
    requires i <= e <= |s| && (forall k :: i <= k < e ==> Printable(s[k])) && (e < |s| ==> !Printable(s[e]))
    ensures StretchEnd(s, i) == e
    decreases e - i
  {
    if i < e { StretchEndsAt(s, i + 1, e); }
  }

  /** The run that starts at i, and that no other run starts before its end. */
  lemma RunFrom(s: seq<byte>, i: nat, e: nat)
    requires i < e <= |s| && (i > 0 ==> !Printable(s[i - 1]))
    requires (forall k :: i <= k < e ==> Printable(s[k])) && (e < |s| ==> !Printable(s[e]))
    ensures IsRun(s, Run(i, e))
    ensures forall r :: IsRun(s, r) && r.first >= i ==> r == Run(i, e) || r.first > e
  {
    forall r | IsRun(s, r) && r.first >= i
      ensures r == Run(i, e) || r.first > e
    {
      if r.first < e {
        assert r.first == i;
        assert r.end == e;
      }
    }
  }

  /** Runs lists exactly the maximal runs of sufficient length, in increasing order. */
  lemma {:induction false} RunsAreExact(s: seq<byte>, i: nat, minimum: nat)
    requires i <= |s| && (i > 0 && i < |s| ==> !Printable(s[i - 1]) || !Printable(s[i]))
    ensures forall r :: r in Runs(s, i, minimum) <==> IsRun(s, r) && r.first >= i && r.end - r.first >= minimum
    ensures forall j, k :: 0 <= j < k < |Runs(s, i, minimum)| ==>
      Runs(s, i, minimum)[j].end < Runs(s, i, minimum)[k].first
    decreases |s| - i
  {
    hide Runs, StretchEnd;
    UnfoldRuns(s, i, minimum);
    if i < |s| {
      if !Printable(s[i]) {
        RunsAreExact(s, i + 1, minimum);
      } else {
        var e := StretchEnd(s, i + 1);
        StretchIsPrintable(s, i + 1);
        RunFrom(s, i, e);
        RunsAreExact(s, e, minimum);
        OneMoreRun(s, i, e, minimum, Runs(s, e, minimum));
      }
    }
  }

  lemma UnfoldRuns(s: seq<byte>, i: nat, minimum: nat)
    requires i <= |s|
    ensures i == |s| ==> Runs(s, i, minimum) == []
    ensures i < |s| && !Printable(s[i]) ==> Runs(s, i, minimum) == Runs(s, i + 1, minimum)
    ensures i < |s| && Printable(s[i]) ==>
      var e := StretchEnd(s, i + 1);
      Runs(s, i, minimum) == (if e - i >= minimum then [Run(i, e)] else []) + Runs(s, e, minimum)
  {
  }

  /** A run in front of the later ones. */
  lemma OneMoreRun(s: seq<byte>, i: nat, e: nat, minimum: nat, rest: seq<Run>)
    requires i < e && IsRun(s, Run(i, e))
    requires forall r :: IsRun(s, r) && r.first >= i ==> r == Run(i, e) || r.first > e
    requires forall r :: r in rest <==> IsRun(s, r) && r.first >= e && r.end - r.first >= minimum
    requires forall j, k :: 0 <= j < k < |rest| ==> rest[j].end < rest[k].first
    ensures var all := (if e - i >= minimum then [Run(i, e)] else []) + rest;
            && (forall r :: r in all <==> IsRun(s, r) && r.first >= i && r.end - r.first >= minimum)
            && (forall j, k :: 0 <= j < k < |all| ==> all[j].end < all[k].first)
  {
    hide IsRun;
    forall k | 0 <= k < |rest| ensures rest[k].first > e { assert rest[k] in rest; }
  }

  /** In the bytes themselves: what is listed are exactly the stretches of bytes from blank to tilde, of the minimum
      length, that cannot be extended on either side. */
  lemma ListedRuns(s: seq<byte>, minimum: nat)
    ensures forall r :: r in Runs(s, 0, minimum) <==>
      && r.first < r.end <= |s| && r.end - r.first >= minimum
      && (forall k :: r.first <= k < r.end ==> ' ' <= s[k] <= '~')
      && (r.first > 0 ==> !(' ' <= s[r.first - 1] <= '~'))
      && (r.end < |s| ==> !(' ' <= s[r.end] <= '~'))
    ensures forall j, k :: 0 <= j < k < |Runs(s, 0, minimum)| ==>
      Runs(s, 0, minimum)[j].end < Runs(s, 0, minimum)[k].first
  {
    hide Runs;
    RunsAreExact(s, 0, minimum);
  }

  /** The report is the bytes of each listed run, followed by a newline, and nothing else. */
  lemma {:induction false} ListingReadsBack(s: seq<byte>, runs: seq<Run>) returns (pieces: seq<seq<byte>>)
    requires forall k :: 0 <= k < |runs| ==> runs[k].first <= runs[k].end <= |s|
    ensures Listing(s, runs) == Flatten(pieces) && |pieces| == |runs|
    ensures forall k :: 0 <= k < |runs| ==> pieces[k] == s[runs[k].first..runs[k].end] + ['\n']
  {
    if runs == [] {
      pieces := [];
    } else {
      pieces := ListingReadsBack(s, runs[1..]);
      pieces := [s[runs[0].first..runs[0].end] + ['\n']] + pieces;
    }
  }

  /** The report of a position inside a non-printable stretch, or at the end of a run. */
  lemma ReportSkips(s: seq<byte>, i: nat, minimum: nat)
    requires i < |s| && !Printable(s[i])
    ensures Report(s, i, minimum) == Report(s, i + 1, minimum)
  {
  }

  lemma ReportRun(s: seq<byte>, i: nat, e: nat, minimum: nat)
    requires i < e <= |s| && (forall k :: i <= k < e ==> Printable(s[k])) && (e < |s| ==> !Printable(s[e]))
    ensures Report(s, i, minimum)
         == (if e - i >= minimum then s[i..e] + ['\n'] else []) + Report(s, e, minimum)
  {
    StretchEndsAt(s, i + 1, e);
    var rest := Runs(s, e, minimum);
    if e - i >= minimum {
      assert Runs(s, i, minimum) == [Run(i, e)] + rest;
      assert Runs(s, i, minimum)[1..] == rest;
    } else {
      assert Runs(s, i, minimum) == rest;
    }
  }

  // -------------------------------------------------------------- the program

  /** The state between two input bytes: the current run and how much of it is still buffered. */
  ghost predicate Pending(s: seq<byte>, p: nat, from: nat, text: seq<byte>, used: nat, emitted: bool) {
    && from <= p <= |s| && used <= |text| && used < STRING_BYTES && used <= p - from
    && (forall k :: from <= k < p ==> Printable(s[k]))
    && text[..used] == s[p - used..p]
    && (emitted <==> used < p - from)
    && (emitted ==> p - used - from >= STRING_BYTES - 1)
  }

  /** Bytes of an unfinished run may be written once it is known to be long enough. */
  lemma RunIsReported(s: seq<byte>, from: nat, p: nat, minimum: nat)
    requires from <= p <= |s| && p - from >= minimum > 0 && (forall k :: from <= k < p ==> Printable(s[k]))
    ensures s[from..p] <= Report(s, from, minimum)
    ensures p == |s| || !Printable(s[p]) ==> s[from..p] + ['\n'] <= Report(s, from, minimum)
  {
    hide Report, StretchEnd;
    var e := StretchEnd(s, p);
    StretchIsPrintable(s, p);
    ReportRun(s, from, e, minimum);
    assert s[from..e] == s[from..p] + s[p..e];
  }

  method WriteText(out: Sink, text: array<byte>, length: nat) returns (ok: bool)
    requires length <= text.Length
    modifies out
    ensures old(out.written) <= out.written <= old(out.written) + text[..length]
    ensures ok ==> out.written == old(out.written) + text[..length] && out.failed == old(out.failed)
    ensures !ok ==> out.failed
  {
    if length == 0 { return true; }
    var wrote := out.Write(text[..length]);
    ok := wrote == length;
  }

  method WriteNewline(out: Sink) returns (ok: bool)
    modifies out
    ensures old(out.written) <= out.written <= old(out.written) + ['\n']
    ensures ok ==> out.written == old(out.written) + ['\n'] && out.failed == old(out.failed)
    ensures !ok ==> out.failed
  {
    var wrote := out.Write(['\n']);
    ok := wrote == 1;
  }

  /** What happens when a run ends, at an unprintable byte or at the end of the file. */
  method EndRun(out: Sink, text: array<byte>, used: nat, emitted: bool, minimum: nat) returns (ok: bool)
    requires used <= text.Length
    modifies out
    ensures var tail := if emitted || used >= minimum then text[..used] + ['\n'] else [];
            && old(out.written) <= out.written <= old(out.written) + tail
            && (ok ==> out.written == old(out.written) + tail && out.failed == old(out.failed))
    ensures !ok ==> out.failed
  {
    ok := true;
    if emitted || used >= minimum {
      ok := WriteText(out, text, used);
      if ok {
        ok := WriteNewline(out);
      }
    }
  }

  /** The buffer holds the last part of the current run. */
  lemma RunSplit(s: seq<byte>, p: nat, from: nat, text: seq<byte>, used: nat, emitted: bool)
    requires Pending(s, p, from, text, used, emitted)
    ensures s[from..p] == s[from..p - used] + text[..used]
  {
  }

  /** What the end of a run adds to the output completes the report of the run. */
  lemma RunCompleted(s: seq<byte>, p: nat, from: nat, text: seq<byte>, used: nat, emitted: bool, minimum: nat)
    requires Pending(s, p, from, text, used, emitted) && 1 <= minimum < STRING_BYTES
    requires p < |s| ==> !Printable(s[p])
    ensures var tail := if emitted || used >= minimum then text[..used] + ['\n'] else [];
            Report(s, from, minimum) == s[from..p - used] + tail + Report(s, if p < |s| then p + 1 else p, minimum)
  {
    hide Report;
    RunSplit(s, p, from, text, used, emitted);
    if from < p { ReportRun(s, from, p, minimum); }
    if p < |s| { ReportSkips(s, p, minimum); }
    var rest := Report(s, if p < |s| then p + 1 else p, minimum);
    if emitted || used >= minimum {
      Assoc(s[from..p - used], text[..used], ['\n']);
    } else {
      assert s[from..p - used] == [];
    }
  }

  /** If some output and a tail extend to a prefix of everything, so does any part of the tail. */
  lemma PartIsPrefix(all: seq<byte>, sent: seq<byte>, tail: seq<byte>, rest: seq<byte>, more: seq<byte>)
    requires all == sent + tail + rest && sent <= more <= sent + tail
    ensures more <= all
  {
  }

  lemma Regroup(done: seq<byte>, run: seq<byte>, head: seq<byte>, tail: seq<byte>, report: seq<byte>)
    returns (rest: seq<byte>)
    requires run == head + tail && run <= report
    ensures done + report == (done + head) + tail + rest
  {
    rest := report[|run|..];
  }

  /** The loop invariant: what was written, and what the rest of the file still has to add. */
  ghost predicate Reporting(s: seq<byte>, p: nat, from: nat, text: seq<byte>, used: nat, emitted: bool, minimum: nat,
                            done: seq<byte>, sent: seq<byte>) {
    && Pending(s, p, from, text, used, emitted)
    && sent == done + s[from..p - used]
    && Report(s, 0, minimum) == done + Report(s, from, minimum)
  }

  /** Partial output of one flush is still a prefix of the report. */
  lemma FlushIsPrefix(s: seq<byte>, p: nat, from: nat, text: seq<byte>, used: nat, emitted: bool, minimum: nat,
                      done: seq<byte>, sent: seq<byte>, more: seq<byte>)
    requires Reporting(s, p, from, text, used, emitted, minimum, done, sent) && 1 <= minimum < STRING_BYTES
    requires sent <= more <= sent + text[..used] && p - from >= STRING_BYTES - 1
    ensures more <= Report(s, 0, minimum)
  {
    hide Report;
    RunIsReported(s, from, p, minimum);
    RunSplit(s, p, from, text, used, emitted);
    var rest := Regroup(done, s[from..p], s[from..p - used], text[..used], Report(s, from, minimum));
    PartIsPrefix(Report(s, 0, minimum), sent, text[..used], rest, more);
  }

  /** The end of a run, and what remains to be reported after it. */
  lemma EndIsPrefix(s: seq<byte>, p: nat, from: nat, text: seq<byte>, used: nat, emitted: bool, minimum: nat,
                    done: seq<byte>, sent: seq<byte>, more: seq<byte>)
    requires Reporting(s, p, from, text, used, emitted, minimum, done, sent) && 1 <= minimum < STRING_BYTES
    requires p < |s| ==> !Printable(s[p])
    requires sent <= more <= sent + if emitted || used >= minimum then text[..used] + ['\n'] else []
    ensures more <= Report(s, 0, minimum)
    ensures var tail := if emitted || used >= minimum then text[..used] + ['\n'] else [];
            Report(s, 0, minimum) == sent + tail + Report(s, if p < |s| then p + 1 else p, minimum)
  {
    hide Report;
    var tail := if emitted || used >= minimum then text[..used] + ['\n'] else [];
    var rest := Report(s, if p < |s| then p + 1 else p, minimum);
    RunCompleted(s, p, from, text, used, emitted, minimum);
    AssocAll(done, s[from..p - used], tail, rest);
    PartIsPrefix(Report(s, 0, minimum), sent, tail, rest, more);
  }

  lemma AssocAll(a: seq<byte>, b: seq<byte>, c: seq<byte>, d: seq<byte>)
    ensures a + (b + c + d) == (a + b) + c + d
  {
  }

  /** Bytes that reached the output before a read error are a prefix of the report. */
  lemma SentIsPrefix(s: seq<byte>, p: nat, from: nat, text: seq<byte>, used: nat, emitted: bool, minimum: nat,
                     done: seq<byte>, sent: seq<byte>)
    requires Reporting(s, p, from, text, used, emitted, minimum, done, sent) && 1 <= minimum < STRING_BYTES
    ensures sent <= Report(s, 0, minimum)
  {
    hide Report;
    if emitted {
      RunIsReported(s, from, p - used, minimum);
      PrefixAfter(done, s[from..p - used], Report(s, from, minimum));
    } else {
      assert sent == done;
    }
  }

  lemma PrefixAfter(done: seq<byte>, part: seq<byte>, report: seq<byte>)
    requires part <= report
    ensures done + part <= done + report
  {
  }

  lemma Buffered(s: seq<byte>, p: nat, from: nat, text: seq<byte>, used: nat, emitted: bool, minimum: nat,
                 done: seq<byte>, sent: seq<byte>)
    requires Reporting(s, p, from, text, used, emitted, minimum, done, sent)
    requires p < |s| && Printable(s[p]) && used < STRING_BYTES - 1 < |text|
    ensures Reporting(s, p + 1, from, text[used := s[p]], used + 1, emitted, minimum, done, sent)
  {
    hide Report;
    assert text[used := s[p]][..used] == text[..used];
    assert text[used := s[p]][..used + 1] == text[..used] + [s[p]];
    assert s[p - used..p + 1] == s[p - used..p] + [s[p]];
  }

  lemma Flushed(s: seq<byte>, p: nat, from: nat, text: seq<byte>, used: nat, emitted: bool, minimum: nat,
                done: seq<byte>, sent: seq<byte>)
    requires Reporting(s, p, from, text, used, emitted, minimum, done, sent) && used == STRING_BYTES - 1
    ensures Reporting(s, p, from, text, 0, true, minimum, done, sent + text[..used])
  {
    RunSplit(s, p, from, text, used, emitted);
    Assoc(done, s[from..p - used], text[..used]);
  }

  /** Output only grows after the bytes that were there before the program started. */
  lemma Strip(base: seq<byte>, sent: seq<byte>, tail: seq<byte>, written: seq<byte>) returns (more: seq<byte>)
    requires base + sent <= written <= base + sent + tail
    ensures written == base + more && sent <= more <= sent + tail
    ensures written == base + sent + tail ==> more == sent + tail
  {
    more := written[|base|..];
  }

  /** The loop's branch for a printable byte: flush a full buffer, then append. */
  method PutByte(c: byte, text: array<byte>, used0: nat, emitted0: bool, minimum: nat, out: Sink,
                 ghost s: seq<byte>, ghost p: nat, ghost from: nat, ghost done: seq<byte>,
                 ghost base: seq<byte>, ghost sent0: seq<byte>)
    returns (used: nat, emitted: bool, ok: bool, ghost sent: seq<byte>)
    requires 1 <= minimum < STRING_BYTES == text.Length
    requires p < |s| && c == s[p] && Printable(c)
    requires out.written == base + sent0
    requires Reporting(s, p, from, text[..], used0, emitted0, minimum, done, sent0)
    modifies text, out
    ensures out.written == base + sent
    ensures ok ==> Reporting(s, p + 1, from, text[..], used, emitted, minimum, done, sent)
    ensures ok ==> out.failed == old(out.failed)
    ensures !ok ==> out.failed && sent <= Report(s, 0, minimum)
  {
    used, emitted, ok, sent := used0, emitted0, true, sent0;
    ghost var buffer := text[..];
    if used == STRING_BYTES - 1 {
      ok := WriteText(out, text, used);
      sent := Strip(base, sent0, buffer[..used], out.written);
      FlushIsPrefix(s, p, from, buffer, used, emitted, minimum, done, sent0, sent);
      if !ok { return; }
      Flushed(s, p, from, buffer, used, emitted, minimum, done, sent0);
      emitted := true;
      used := 0;
    }
    Buffered(s, p, from, buffer, used, emitted, minimum, done, sent);
    text[used] := c;
    assert text[..] == buffer[used := s[p]];
    used := used + 1;
  }

  lemma NothingAtEnd(s: seq<byte>, minimum: nat)
    ensures Report(s, |s|, minimum) == []
  {
  }

  /** The loop's branch for a byte that ends a run, possibly an empty one. */
  method PutBreak(text: array<byte>, used: nat, emitted: bool, minimum: nat, out: Sink,
                  ghost s: seq<byte>, ghost p: nat, ghost from: nat, ghost done: seq<byte>,
                  ghost base: seq<byte>, ghost sent0: seq<byte>)
    returns (ok: bool, ghost sent: seq<byte>)
    requires 1 <= minimum < STRING_BYTES == text.Length
    requires p <= |s| && (p < |s| ==> !Printable(s[p]))
    requires out.written == base + sent0
    requires Reporting(s, p, from, text[..], used, emitted, minimum, done, sent0)
    modifies out
    ensures out.written == base + sent && sent <= Report(s, 0, minimum)
    ensures ok && p < |s| ==> Reporting(s, p + 1, p + 1, text[..], 0, false, minimum, sent, sent)
    ensures ok && p == |s| ==> sent == Report(s, 0, minimum)
    ensures ok ==> out.failed == old(out.failed)
    ensures !ok ==> out.failed
  {
    hide Report;
    ghost var tail := if emitted || used >= minimum then text[..used] + ['\n'] else [];
    ok := EndRun(out, text, used, emitted, minimum);
    sent := Strip(base, sent0, tail, out.written);
    EndIsPrefix(s, p, from, text[..], used, emitted, minimum, done, sent0, sent);
    NothingAtEnd(s, minimum);
  }

  /** The byte loop over one read buffer. */
  method ScanChunk(input: array<byte>, got: nat, text: array<byte>, used0: nat, emitted0: bool, minimum: nat, out: Sink,
                   ghost s: seq<byte>, ghost p0: nat, ghost from0: nat, ghost done0: seq<byte>,
                   ghost base: seq<byte>, ghost sent0: seq<byte>)
    returns (used: nat, emitted: bool, ok: bool, ghost from: nat, ghost done: seq<byte>, ghost sent: seq<byte>)
    requires 1 <= minimum < STRING_BYTES == text.Length && text != input
    requires got <= input.Length && p0 + got <= |s| && input[..got] == s[p0..p0 + got]
    requires out.written == base + sent0
    requires Reporting(s, p0, from0, text[..], used0, emitted0, minimum, done0, sent0)
    modifies text, out
    ensures out.written == base + sent
    ensures ok ==> Reporting(s, p0 + got, from, text[..], used, emitted, minimum, done, sent)
    ensures ok ==> out.failed == old(out.failed)
    ensures !ok ==> out.failed && sent <= Report(s, 0, minimum)
  {
    hide Reporting;
    used, emitted, ok, from, done, sent := used0, emitted0, true, from0, done0, sent0;
    var i := 0;
    ghost var chunk := input[..got];
    while i < got
      invariant 0 <= i <= got && ok && out.failed == old(out.failed)
      invariant out.written == base + sent
      invariant input[..got] == chunk
      invariant Reporting(s, p0 + i, from, text[..], used, emitted, minimum, done, sent)
    {
      assert input[i] == chunk[i] == s[p0 + i];
      if Printable(input[i]) {
        used, emitted, ok, sent :=
          PutByte(input[i], text, used, emitted, minimum, out, s, p0 + i, from, done, base, sent);
        if !ok { break; }
      } else {
        ok, sent := PutBreak(text, used, emitted, minimum, out, s, p0 + i, from, done, base, sent);
        if !ok { break; }
        used := 0;
        emitted := false;
        from, done := p0 + i + 1, sent;
      }
      i := i + 1;
    }
  }

  /** The read loop of main: lists a whole file, however the reads cut it up. */
  method ListStrings(file: InFile, out: Sink, minimum: nat) returns (code: int)
    requires 1 <= minimum < STRING_BYTES
    requires file.pos == 0 && !file.failed && !out.failed
    modifies file, out
    ensures old(out.written) <= out.written <= old(out.written) + Report(file.contents, 0, minimum)
    ensures code == 0 ==> out.written == old(out.written) + Report(file.contents, 0, minimum)
    ensures code == (if file.failed || out.failed then 5 else 0)
  {
    var input := new byte[READ_BYTES];
    var text := new byte[STRING_BYTES];
    var got := 0;
    var used, emitted, ok := 0, false, true;
    ghost var s, base := file.contents, out.written;
    ghost var from: nat, done: seq<byte>, sent: seq<byte> := 0, [], [];
    ghost var p := 0;
    assert Reporting(s, 0, 0, text[..], 0, false, minimum, [], []);
    hide Reporting, Report;
    while true
      invariant ok && !out.failed && !file.failed && p == file.pos <= |s|
      invariant out.written == base + sent
      invariant Reporting(s, p, from, text[..], used, emitted, minimum, done, sent)
      decreases |s| - p
    {
      got := file.Read(input, READ_BYTES);
      if got <= 0 { break; }
      used, emitted, ok, from, done, sent :=
        ScanChunk(input, got, text, used, emitted, minimum, out, s, p, from, done, base, sent);
      if !ok { break; }
      p := file.pos;
    }
    if !ok { return 5; }
    code := FinishList(got, out, text, used, emitted, minimum, s, p, from, done, base, sent);
  }

  /** After the last read: the run that reaches the end of the file, or a read error. */
  method FinishList(got: LONG, out: Sink, text: array<byte>, used: nat, emitted: bool, minimum: nat,
                    ghost s: seq<byte>, ghost p: nat, ghost from: nat, ghost done: seq<byte>,
                    ghost base: seq<byte>, ghost sent0: seq<byte>)
    returns (code: int)
    requires 1 <= minimum < STRING_BYTES == text.Length && p <= |s| && (got >= 0 ==> p == |s|)
    requires out.written == base + sent0 && !out.failed
    requires Reporting(s, p, from, text[..], used, emitted, minimum, done, sent0)
    modifies out
    ensures base <= out.written <= base + Report(s, 0, minimum)
    ensures code == 0 ==> out.written == base + Report(s, 0, minimum)
    ensures code == (if got < 0 || out.failed then 5 else 0)
  {
    hide Reporting, Report;
    if got < 0 {
      SentIsPrefix(s, p, from, text[..], used, emitted, minimum, done, sent0);
      return 5;
    }
    var ok;
    ghost var sent;
    ok, sent := PutBreak(text, used, emitted, minimum, out, s, p, from, done, base, sent0);
    code := if ok then 0 else 5;
  }

  /** The minimum run length the arguments ask for, or -1 when they are refused. */
  ghost function RequestedMinimum(argv: seq<CString>): int {
    if |argv| == 2 then 4
    else if |argv| == 3 && IsCount(argv[2]) && 1 <= Value(argv[2], 10) <= 255 then Value(argv[2], 10)
    else -1
  }

  /** Strings, on the file its first argument names, or null when that cannot be opened. */
  method Strings(argv: seq<CString>, file: InFile?, out: Sink) returns (code: int)
    requires file != null ==> file.pos == 0 && !file.failed
    requires !out.failed
    modifies file, out
    ensures code == 10 <==> RequestedMinimum(argv) < 0
    ensures code == 0 ==>
      file != null && out.written == old(out.written) + Report(file.contents, 0, RequestedMinimum(argv))
    ensures code != 10 ==> code == if file == null || file.failed || out.failed then 5 else 0
    ensures code == 10 || file == null ==> out.written == old(out.written)
    ensures code != 10 && file != null ==>
      old(out.written) <= out.written <= old(out.written) + Report(file.contents, 0, RequestedMinimum(argv))
  {
    hide Report;
    if |argv| < 2 || |argv| > 3 { return 10; }
    var minimum: ULONG := DEFAULT_MINIMUM;
    if |argv| == 3 {
      var ok;
      ok, minimum := ParseMinimum(argv[2]);
      if !ok || minimum == 0 || minimum >= STRING_BYTES { return 10; }
    }
    if file == null { return 5; }
    code := ListStrings(file, out, minimum);
  }
}
