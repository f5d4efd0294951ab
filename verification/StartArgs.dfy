/** The command-line tokenizer of the shared startup code. */
module StartArgs {
  import opened Bytes
  import opened Streams

  const MAX_ARGS := 16
  const CMDLINE_LEN := 256

  /** An entry of argv: null, the program name, or an offset into the argument buffer. */
  datatype Pointer = Null | ProgramName | Arg(offset: nat)

  predicate IsBlank(c: char) {
    c == ' ' || c == '\t' || c == '\r' || c == '\n'
  }

  /** Whether a character ends an argument. */
  predicate Ends(c: char, quoted: bool) {
    if quoted then c == '"' else IsBlank(c)
  }

  // ----------------------------------------------------------- specification

  /** The first position from i on that holds no blank. */
  ghost function SkipFrom(t: seq<byte>, i: nat): (j: nat)
    requires i <= |t|
    ensures i <= j <= |t|
    decreases |t| - i
  {
    if i < |t| && IsBlank(t[i]) then SkipFrom(t, i + 1) else i
  }

  /** The position that ends an argument whose text starts at i. */
  ghost function EndFrom(t: seq<byte>, i: nat, quoted: bool): (e: nat)
    requires i <= |t|
    ensures i <= e <= |t|
    decreases |t| - i
  {
    if i < |t| && !Ends(t[i], quoted) then EndFrom(t, i + 1, quoted) else i
  }

  /** The arguments found from position i on, however many. */
  ghost function Tokens(t: seq<byte>, i: nat): seq<seq<byte>>
    requires i <= |t|
    decreases |t| - i
  {
    var j := SkipFrom(t, i);
    if j == |t| then []
    else
      var quoted := t[j] == '"';
      var start := if quoted then j + 1 else j;
      var e := EndFrom(t, start, quoted);
      [t[start..e]] + Tokens(t, if e < |t| then e + 1 else e)
  }

  /** The characters of the line the startup code looks at. */
  ghost function Seen(line: seq<byte>, length: int): seq<byte>
    requires length <= |line|
  {
    line[..Min(if length < 0 then 0 else length, CMDLINE_LEN - 1)]
  }

  ghost function FirstArgs(tokens: seq<seq<byte>>): seq<seq<byte>> {
    tokens[..Min(|tokens|, MAX_ARGS)]
  }

  /** The argument buffer's image of a list of arguments. */
  ghost function Pack(tokens: seq<seq<byte>>): seq<byte> {
    if tokens == [] then [] else tokens[0] + ['\0'] + Pack(tokens[1..])
  }

  lemma {:induction false} PackSnoc(tokens: seq<seq<byte>>, last: seq<byte>)
    ensures Pack(tokens + [last]) == Pack(tokens) + last + ['\0']
  {
    if tokens == [] {
      assert tokens + [last] == [last];
      assert Pack([last]) == last + ['\0'] + Pack([last][1..]);
    } else {
      assert (tokens + [last])[1..] == tokens[1..] + [last];
      PackSnoc(tokens[1..], last);
    }
  }

  /** argv as the program receives it. */
  ghost predicate Holds(argv: seq<Pointer>, argbuf: seq<byte>, argc: int, tokens: seq<seq<byte>>) {
    && argc == |tokens| + 1 < |argv|
    && argv[0] == ProgramName
    && argv[argc] == Null
    && |Pack(tokens)| <= |argbuf|
    && argbuf[..|Pack(tokens)|] == Pack(tokens)
    && PointsInto(argv, tokens)
  }

  /** The C string at an offset of a buffer: everything up to the first NUL. */
  ghost function StringAt(buf: seq<byte>, offset: nat): seq<byte>
    requires offset <= |buf|
    decreases |buf| - offset
  {
    if offset == |buf| || buf[offset] == '\0' then [] else [buf[offset]] + StringAt(buf, offset + 1)
  }

  // -------------------------------------------------------------- the program

  method SkipBlanks(line: seq<byte>, start: nat) returns (i: nat)
    requires start <= |line|
    ensures i == SkipFrom(line, start)
  {
    i := start;
    while i < |line| && (line[i] == ' ' || line[i] == '\t' || line[i] == '\r' || line[i] == '\n')
      invariant start <= i <= |line|
      invariant SkipFrom(line, start) == SkipFrom(line, i)
    {
      i := i + 1;
    }
  }

  /** argbuf[out++] = c, without the increment. */
  method PutChar(argbuf: array<byte>, out: nat, c: byte)
    requires out < argbuf.Length
    modifies argbuf
    ensures argbuf[..out + 1] == old(argbuf[..out]) + [c]
  {
    argbuf[out] := c;
  }

  /** Copies one argument and its terminator; the two capacity guards never turn anything away. */
  method CopyArg(line: seq<byte>, start: nat, outStart: nat, quoted: bool, argbuf: array<byte>)
    returns (i: nat, out: nat)
    requires outStart <= start <= |line| < CMDLINE_LEN == argbuf.Length
    modifies argbuf
    ensures var e := EndFrom(line, start, quoted);
            && i == (if e < |line| then e + 1 else e)
            && out == outStart + (e - start) + 1 <= CMDLINE_LEN
            && argbuf[..out] == old(argbuf[..outStart]) + line[start..e] + ['\0']
  {
    i, out := start, outStart;
    ghost var e := EndFrom(line, start, quoted);
    ghost var at := start;
    while i < |line|
      invariant start <= at == i <= e <= |line| && out == outStart + (at - start)
      invariant e == EndFrom(line, at, quoted)
      invariant argbuf[..out] == old(argbuf[..outStart]) + line[start..at]
    {
      var c := line[i];
      i := i + 1;
      if quoted {
        if c == '"' { break; }
      } else if c == ' ' || c == '\t' || c == '\r' || c == '\n' {
        break;
      }
      if out < CMDLINE_LEN - 1 {
        PutChar(argbuf, out, c);
        out := out + 1;
      }
      at := at + 1;
      assert line[start..at] == line[start..at - 1] + [c];
    }
    if out < CMDLINE_LEN {
      PutChar(argbuf, out, '\0');
      out := out + 1;
    }
  }

  ghost predicate TokenAt(t: seq<byte>, i: nat, start: nat, quoted: bool, e: nat, next: nat) {
    && i <= |t| && SkipFrom(t, i) < |t|
    && (quoted <==> t[SkipFrom(t, i)] == '"')
    && start == SkipFrom(t, i) + (if quoted then 1 else 0)
    && e == EndFrom(t, start, quoted)
    && next == (if e < |t| then e + 1 else e)
  }

  /** The tokens after i, given the place of the first one. */
  lemma NextToken(t: seq<byte>, i: nat, start: nat, quoted: bool, e: nat, next: nat)
    requires TokenAt(t, i, start, quoted, e, next)
    ensures i < next <= |t| && start <= e <= |t| && Tokens(t, i) == [t[start..e]] + Tokens(t, next)
  {
    hide SkipFrom, EndFrom;
  }

  lemma Regroup<T>(all: seq<T>, done: seq<T>, remaining: seq<T>, next: T, rest: seq<T>)
    requires done + remaining == all && remaining == [next] + rest
    ensures (done + [next]) + rest == all
  {
  }

  /** Entry k + 1 of argv points to the start of argument k. */
  ghost predicate PointsInto(argv: seq<Pointer>, tokens: seq<seq<byte>>) {
    |tokens| < |argv| && forall k :: 0 <= k < |tokens| ==> argv[k + 1] == Arg(|Pack(tokens[..k])|)
  }

  lemma PointsIntoSnoc(argv: seq<Pointer>, out: nat, tokens: seq<seq<byte>>, last: seq<byte>)
    requires PointsInto(argv, tokens) && |tokens| + 1 < |argv| && out == |Pack(tokens)|
    ensures PointsInto(argv[|tokens| + 1 := Arg(out)], tokens + [last])
  {
    var longer := tokens + [last];
    var argv' := argv[|tokens| + 1 := Arg(out)];
    forall k | 0 <= k < |longer|
      ensures argv'[k + 1] == Arg(|Pack(longer[..k])|)
    {
      assert longer[..k] == tokens[..k];
      if k == |tokens| { assert tokens[..k] == tokens; }
    }
  }

  /** How one round of the loop extends the arguments found so far. */
  lemma AcceptToken(t: seq<byte>, i: nat, start: nat, quoted: bool, e: nat, next: nat,
                    done: seq<seq<byte>>, image: seq<byte>, entries: seq<Pointer>)
    requires TokenAt(t, i, start, quoted, e, next) && done + Tokens(t, i) == Tokens(t, 0)
    requires image == Pack(done) && PointsInto(entries, done) && |done| + 1 < |entries|
    ensures i < next <= |t| && start <= e <= |t|
    ensures var longer := done + [t[start..e]];
            && longer + Tokens(t, next) == Tokens(t, 0)
            && Pack(longer) == image + t[start..e] + ['\0']
            && PointsInto(entries[|done| + 1 := Arg(|image|)], longer)
  {
    NextToken(t, i, start, quoted, e, next);
    Regroup(Tokens(t, 0), done, Tokens(t, i), t[start..e], Tokens(t, next));
    PackSnoc(done, t[start..e]);
    PointsIntoSnoc(entries, |image|, done, t[start..e]);
  }

  lemma NothingLeft(t: seq<byte>, i: nat)
    requires i <= |t| && SkipFrom(t, i) == |t|
    ensures Tokens(t, i) == [] == Tokens(t, |t|)
  {
  }

  /** The loop stops at the end of the line or at the argument limit. */
  lemma Finish(entries: seq<Pointer>, argbuf: seq<byte>, all: seq<seq<byte>>, done: seq<seq<byte>>, rest: seq<seq<byte>>)
    requires done + rest == all && |done| <= MAX_ARGS && (|done| < MAX_ARGS ==> rest == [])
    requires |entries| == MAX_ARGS + 2 && entries[0] == ProgramName && PointsInto(entries, done)
    requires |Pack(done)| <= |argbuf| && argbuf[..|Pack(done)|] == Pack(done)
    ensures Holds(entries[|done| + 1 := Null], argbuf, |done| + 1, FirstArgs(all))
  {
    assert FirstArgs(all) == done;
  }

  lemma EmptyImage(argv: seq<Pointer>)
    ensures Pack([]) == [] && (argv != [] ==> PointsInto(argv, []))
  {
  }

  /** The scanning loop of build_argv, on the characters that remain after the length is cut. */
  method Tokenize(line: seq<byte>, argbuf: array<byte>, argv: array<Pointer>) returns (argc: int)
    requires |line| < CMDLINE_LEN == argbuf.Length && argv.Length == MAX_ARGS + 2
    requires argv[0] == ProgramName
    modifies argbuf, argv
    ensures Holds(argv[..], argbuf[..], argc, FirstArgs(Tokens(line, 0)))
  {
    hide Tokens, Pack, PointsInto, Holds, EndFrom;
    var i: nat, out: nat := 0, 0;
    argc := 1;
    EmptyImage(argv[..]);
    ghost var done: seq<seq<byte>> := [];
    ghost var left := Tokens(line, 0);
    while i < |line|
      invariant 0 <= i <= |line|
      invariant out <= i || (i == |line| && out <= i + 1)
      invariant argc == |done| + 1 <= MAX_ARGS + 1
      invariant left == Tokens(line, i) && done + left == Tokens(line, 0)
      invariant out == |Pack(done)| && argbuf[..out] == Pack(done)
      invariant argv[0] == ProgramName && PointsInto(argv[..], done)
      decreases |line| - i
    {
      var quoted := false;
      ghost var i0 := i;
      i := SkipBlanks(line, i);
      if i >= |line| {
        NothingLeft(line, i0);
        break;
      }
      if argc > MAX_ARGS { break; }
      ghost var entries := argv[..];
      argv[argc] := Arg(out);
      assert argv[..] == entries[argc := Arg(out)];
      argc := argc + 1;
      if line[i] == '"' {
        quoted := true;
        i := i + 1;
      }
      ghost var start, e := i, EndFrom(line, i, quoted);
      ghost var token := line[start..e];
      ghost var entries', image := argv[..], argbuf[..out];
      i, out := CopyArg(line, i, out, quoted, argbuf);
      assert argv[..] == entries';
      AcceptToken(line, i0, start, quoted, e, i, done, image, entries);
      done, left := done + [token], Tokens(line, i);
    }
    ghost var entries := argv[..];
    argv[argc] := Null;
    assert argv[..] == entries[argc := Null];
    NothingLeft(line, |line|);
    Finish(entries, argbuf[..], Tokens(line, 0), done, left);
  }

  /** build_argv refines the recursive tokenizer, cut to 255 characters and 16 arguments. */
  method BuildArgv(length: LONG, line: seq<byte>, argbuf: array<byte>, argv: array<Pointer>) returns (argc: int)
    requires argbuf.Length == CMDLINE_LEN && argv.Length == MAX_ARGS + 2
    requires length <= |line|
    modifies argbuf, argv
    ensures var seen := line[..if length < 0 then 0 else if length > 255 then 255 else length];
      var tokens := Tokens(seen, 0);
      Holds(argv[..], argbuf[..], argc, tokens[..if |tokens| <= 16 then |tokens| else 16])
    ensures argv[0] == ProgramName
  {
    var len := length;
    argv[0] := ProgramName;
    if len < 0 { len := 0; }
    if len > CMDLINE_LEN - 1 { len := CMDLINE_LEN - 1; }
    argc := Tokenize(line[..len], argbuf, argv);
  }

  // -------------------------------------------------------------- properties

  /** The start of each argument's image, and that the images follow one another. */
  lemma {:induction false} PackAt(tokens: seq<seq<byte>>, k: nat)
    requires k < |tokens|
    ensures var at := |Pack(tokens[..k])|;
            && at + |tokens[k]| < |Pack(tokens)|
            && Pack(tokens)[at..at + |tokens[k]|] == tokens[k]
            && Pack(tokens)[at + |tokens[k]|] == '\0'
            && |Pack(tokens[..k + 1])| == at + |tokens[k]| + 1
  {
    hide Pack;
    var first, rest := tokens[0] + ['\0'], tokens[1..];
    PackCons(tokens);
    PackCons(tokens[..k + 1]);
    if k == 0 {
      EmptyImage([]);
      assert tokens[..0] == [] && tokens[..1][1..] == [];
    } else {
      PackAt(rest, k - 1);
      PackCons(tokens[..k]);
      assert tokens[..k][1..] == rest[..k - 1] && tokens[..k + 1][1..] == rest[..k];
      var at := |Pack(rest[..k - 1])|;
      Shifted(first, Pack(rest), at, at + |tokens[k]|);
    }
  }

  lemma PackCons(tokens: seq<seq<byte>>)
    requires tokens != []
    ensures Pack(tokens) == (tokens[0] + ['\0']) + Pack(tokens[1..])
  {
  }

  lemma Shifted(a: seq<byte>, b: seq<byte>, i: nat, j: nat)
    requires i <= j < |b|
    ensures (a + b)[|a| + i..|a| + j] == b[i..j] && (a + b)[|a| + j] == b[j]
  {
  }

  lemma {:induction false} StringOfImage(buf: seq<byte>, at: nat, token: seq<byte>)
    requires at + |token| < |buf| && buf[at..at + |token|] == token && buf[at + |token|] == '\0'
    requires '\0' !in token
    ensures StringAt(buf, at) == token
    decreases |token|
  {
    if token != [] {
      assert buf[at] == token[0];
      assert buf[at + 1..at + |token|] == token[1..];
      StringOfImage(buf, at + 1, token[1..]);
    }
  }

  ghost predicate EntryIs(argv: seq<Pointer>, argbuf: seq<byte>, k: nat, arg: seq<byte>) {
    && k < |argv| && argv[k].Arg? && argv[k].offset < |argbuf|
    && StringAt(argbuf, argv[k].offset) == arg
  }

  /** What the program sees when it reads its arguments as C strings. */
  ghost predicate Receives(argv: seq<Pointer>, argbuf: seq<byte>, argc: int, args: seq<seq<byte>>) {
    && argc == |args| + 1 < |argv|
    && argv[argc] == Null
    && forall k :: 0 <= k < |args| ==> EntryIs(argv, argbuf, k + 1, args[k])
  }

  lemma PrefixSlice(s: seq<byte>, m: nat, a: nat, b: nat)
    requires a <= b < m <= |s|
    ensures s[a..b] == s[..m][a..b] && s[b] == s[..m][b]
  {
  }

  lemma OneReceived(argv: seq<Pointer>, argbuf: seq<byte>, tokens: seq<seq<byte>>, k: nat)
    requires PointsInto(argv, tokens) && k < |tokens| && '\0' !in tokens[k]
    requires |Pack(tokens)| <= |argbuf| && argbuf[..|Pack(tokens)|] == Pack(tokens)
    ensures EntryIs(argv, argbuf, k + 1, tokens[k])
  {
    hide Pack, StringAt;
    PackAt(tokens, k);
    var at := |Pack(tokens[..k])|;
    var n := |tokens[k]|;
    PrefixSlice(argbuf, |Pack(tokens)|, at, at + n);
    StringOfImage(argbuf, at, tokens[k]);
  }

  /** Arguments without NUL are received as they were tokenized. */
  lemma TokensAreReceived(argv: seq<Pointer>, argbuf: seq<byte>, argc: int, tokens: seq<seq<byte>>)
    requires Holds(argv, argbuf, argc, tokens)
    requires forall k :: 0 <= k < |tokens| ==> '\0' !in tokens[k]
    ensures Receives(argv, argbuf, argc, tokens)
  {
    hide Pack, StringAt, EntryIs;
    forall k | 0 <= k < |tokens|
      ensures EntryIs(argv, argbuf, k + 1, tokens[k])
    {
      OneReceived(argv, argbuf, tokens, k);
    }
  }

  /** The two ways to write an argument on a command line. */
  datatype Spelling = Plain(text: seq<byte>) | Quoted(text: seq<byte>)

  /** Quoted text may be anything without a quote; a plain word is not empty, holds no blank and does
      not start with a quote. */
  ghost predicate Proper(a: Spelling) {
    if a.Quoted? then '"' !in a.text
    else a.text != [] && a.text[0] != '"' && forall k :: 0 <= k < |a.text| ==> a.text[k] !in " \t\r\n"
  }

  ghost function Spell(a: Spelling): seq<byte> {
    if a.Quoted? then ['"'] + a.text + ['"'] else a.text
  }

  /** An argument on a command line and the blanks written after it. */
  datatype Word = Word(arg: Spelling, gap: seq<byte>)

  ghost predicate Blanks(gap: seq<byte>) {
    forall k :: 0 <= k < |gap| ==> gap[k] in " \t\r\n"
  }

  /** Proper arguments, a plain one kept apart from the next by at least one blank. */
  ghost predicate Separated(words: seq<Word>) {
    words != [] ==>
      && Proper(words[0].arg) && Blanks(words[0].gap)
      && (words[0].arg.Plain? && |words| > 1 ==> words[0].gap != [])
      && Separated(words[1..])
  }

  /** The words of a command line, one after another. */
  ghost function Written(words: seq<Word>): seq<byte> {
    if words == [] then [] else Spell(words[0].arg) + words[0].gap + Written(words[1..])
  }

  ghost function Texts(words: seq<Word>): seq<seq<byte>> {
    if words == [] then [] else [words[0].arg.text] + Texts(words[1..])
  }

  /** The four characters that separate arguments. */
  lemma BlankNamed(c: char)
    ensures IsBlank(c) <==> c in " \t\r\n"
  {
  }

  /** EndFrom finds the first character that ends an argument. */
  lemma {:induction false} EndIs(t: seq<byte>, i: nat, e: nat, quoted: bool)
    requires i <= e <= |t| && (e < |t| ==> Ends(t[e], quoted))
    requires forall k :: i <= k < e ==> !Ends(t[k], quoted)
    ensures EndFrom(t, i, quoted) == e
    decreases e - i
  {
    hide IsBlank;
    if i < e { EndIs(t, i + 1, e, quoted); }
  }

  /** The tokenizer, standing before a quoted argument, returns its text. */
  lemma QuotedToken(t: seq<byte>, i: nat, text: seq<byte>)
    requires i + |text| + 1 < |t| && t[i] == '"' && t[i + 1..i + 1 + |text|] == text && t[i + 1 + |text|] == '"'
    requires '"' !in text
    ensures Tokens(t, i) == [text] + Tokens(t, i + |text| + 2)
  {
    hide Tokens;
    var e := i + 1 + |text|;
    forall k | i + 1 <= k < e ensures t[k] != '"' { assert t[k] == text[k - i - 1]; }
    EndIs(t, i + 1, e, true);
    NextToken(t, i, i + 1, true, e, e + 1);
  }

  lemma SkipOneBlank(t: seq<byte>, i: nat)
    requires i < |t| && IsBlank(t[i])
    ensures Tokens(t, i) == Tokens(t, i + 1)
  {
    assert SkipFrom(t, i) == SkipFrom(t, i + 1);
  }

  /** The tokenizer, standing before a plain word, returns it. */
  lemma PlainToken(t: seq<byte>, i: nat, text: seq<byte>)
    requires Proper(Plain(text)) && i + |text| <= |t| && t[i..i + |text|] == text
    requires i + |text| < |t| ==> IsBlank(t[i + |text|])
    ensures Tokens(t, i) == [text] + Tokens(t, i + |text|)
  {
    hide Tokens, IsBlank;
    var e := i + |text|;
    forall k | i <= k < e ensures t[k] == text[k - i] && !IsBlank(t[k]) {
      assert t[k] == t[i..e][k - i];
      BlankNamed(t[k]);
    }
    EndIs(t, i, e, false);
    NextToken(t, i, i, false, e, if e < |t| then e + 1 else e);
    if e < |t| { SkipOneBlank(t, e); }
  }

  /** Either way it is one token; a quoted argument may even be followed by the next one at once. */
  lemma SpelledToken(t: seq<byte>, i: nat, a: Spelling)
    requires Proper(a) && i + |Spell(a)| <= |t| && t[i..i + |Spell(a)|] == Spell(a)
    requires a.Plain? && i + |Spell(a)| < |t| ==> IsBlank(t[i + |Spell(a)|])
    ensures Tokens(t, i) == [a.text] + Tokens(t, i + |Spell(a)|)
  {
    hide Tokens;
    var n := |a.text|;
    if a.Plain? {
      PlainToken(t, i, a.text);
    } else {
      QuotedInPlace(t, i, a);
      QuotedToken(t, i, a.text);
    }
  }

  lemma QuotedInPlace(t: seq<byte>, i: nat, a: Spelling)
    requires a.Quoted? && i + |Spell(a)| <= |t| && t[i..i + |Spell(a)|] == Spell(a)
    ensures var n := |a.text|;
            |Spell(a)| == n + 2 && t[i] == '"' && t[i + 1 + n] == '"' && t[i + 1..i + 1 + n] == a.text
  {
    var s, n := t[i..i + |Spell(a)|], |a.text|;
    assert t[i] == s[0] && t[i + 1 + n] == s[1 + n];
    forall k | 0 <= k < n ensures t[i + 1 + k] == a.text[k] { assert s[1 + k] == a.text[k]; }
  }

  /** The tokenizer ignores blanks before an argument. */
  lemma {:induction false} SkipGap(t: seq<byte>, i: nat, n: nat)
    requires i + n <= |t| && Blanks(t[i..i + n])
    ensures Tokens(t, i) == Tokens(t, i + n)
    decreases n
  {
    hide Tokens, IsBlank;
    if n > 0 {
      var gap := t[i..i + n];
      assert gap[0] == t[i] && t[i + 1..i + n] == gap[1..];
      BlankNamed(t[i]);
      SkipOneBlank(t, i);
      SkipGap(t, i + 1, n - 1);
    }
  }

  lemma Slices(t: seq<byte>, i: nat, a: seq<byte>, b: seq<byte>, c: seq<byte>)
    requires i <= |t| && t[i..] == a + b + c
    ensures i + |a| + |b| <= |t|
    ensures t[i..i + |a|] == a && t[i + |a|..i + |a| + |b|] == b && t[i + |a| + |b|..] == c
  {
  }

  /** What stands after a plain word is a blank or the end of the line. */
  lemma WordEnds(t: seq<byte>, i: nat, words: seq<Word>)
    requires i <= |t| && words != [] && Separated(words) && words[0].arg.Plain?
    requires t[i..] == words[0].gap + Written(words[1..])
    ensures i < |t| ==> IsBlank(t[i])
  {
    if i < |t| {
      assert t[i] == t[i..][0];
      assert Blanks(words[0].gap);
      BlankNamed(t[i]);
    }
  }

  /** Tokenizing what is written gives the arguments, wherever it stands in the line. */
  lemma {:induction false} TokensOfWords(t: seq<byte>, i: nat, words: seq<Word>)
    requires i <= |t| && t[i..] == Written(words) && Separated(words)
    ensures Tokens(t, i) == Texts(words)
    decreases |words|
  {
    hide Tokens, Spell, Proper, Blanks;
    if words == [] {
      assert i == |t|;
      NothingLeft(t, i);
    } else {
      var a, gap, rest := words[0].arg, words[0].gap, Written(words[1..]);
      var n := |Spell(a)|;
      Slices(t, i, Spell(a), gap, rest);
      assert t[i + n..] == gap + rest;
      if a.Plain? { WordEnds(t, i + n, words); }
      SpelledToken(t, i, a);
      SkipGap(t, i + n, |gap|);
      TokensOfWords(t, i + n + |gap|, words[1..]);
    }
  }

  /** The tokenizer inverts the writing of command lines, with any blanks before and between arguments. */
  lemma TokensOfLine(lead: seq<byte>, words: seq<Word>)
    requires Blanks(lead) && Separated(words)
    ensures Tokens(lead + Written(words), 0) == Texts(words)
  {
    hide *;
    var t := lead + Written(words);
    assert t[0..|lead|] == lead && t[|lead|..] == Written(words);
    SkipGap(t, 0, |lead|);
    TokensOfWords(t, |lead|, words);
  }

  lemma {:induction false} TextsAt(words: seq<Word>)
    ensures |Texts(words)| == |words| && forall k :: 0 <= k < |words| ==> Texts(words)[k] == words[k].arg.text
  {
    if words != [] { TextsAt(words[1..]); }
  }

  /** Words, each written out as a piece of the line: text, quoted or plain, and blanks after it. */
  ghost predicate Pieces(words: seq<Word>, pieces: seq<seq<byte>>) {
    |pieces| == |words| && forall k :: 0 <= k < |words| ==> pieces[k] == Spell(words[k].arg) + words[k].gap
  }

  lemma {:induction false} WrittenPieces(words: seq<Word>, pieces: seq<seq<byte>>)
    requires Pieces(words, pieces)
    ensures Written(words) == Flatten(pieces)
  {
    hide Spell;
    if words != [] { WrittenPieces(words[1..], pieces[1..]); }
  }

  lemma {:induction false} SeparatedWords(words: seq<Word>)
    requires forall k :: 0 <= k < |words| ==> Proper(words[k].arg) && Blanks(words[k].gap)
    requires forall k :: 0 <= k < |words| - 1 && words[k].arg.Plain? ==> words[k].gap != []
    ensures Separated(words)
  {
    hide Proper, Blanks;
    if words != [] { SeparatedWords(words[1..]); }
  }

  /** Round trip: a line of at most 255 characters, on which at most 16 arguments are written, quoted or plain,
      with any spaces, tabs, returns and newlines before, between and after them, is received as exactly that
      list: entry k + 1 points to the text of argument k, ended by NUL, and the last entry is null. */
  lemma CommandLineRoundTrip(lead: seq<byte>, words: seq<Word>, pieces: seq<seq<byte>>)
    requires |pieces| == |words| <= 16 && |lead + Flatten(pieces)| <= 255
    requires forall k :: 0 <= k < |lead| ==> lead[k] in " \t\r\n"
    requires forall k :: 0 <= k < |words| ==> (pieces[k] ==
      (if words[k].arg.Quoted? then ['"'] + words[k].arg.text + ['"'] else words[k].arg.text) + words[k].gap)
    requires forall k :: 0 <= k < |words| ==> forall j :: 0 <= j < |words[k].gap| ==> words[k].gap[j] in " \t\r\n"
    requires forall k :: 0 <= k < |words| && words[k].arg.Quoted? ==> '"' !in words[k].arg.text
    requires forall k :: 0 <= k < |words| && words[k].arg.Plain? ==>
      words[k].arg.text != [] && words[k].arg.text[0] != '"'
    requires forall k :: 0 <= k < |words| && words[k].arg.Plain? ==>
      forall j :: 0 <= j < |words[k].arg.text| ==> words[k].arg.text[j] !in " \t\r\n"
    requires forall k :: 0 <= k < |words| - 1 && words[k].arg.Plain? ==> words[k].gap != []
    ensures var line := lead + Flatten(pieces);
      forall argv: seq<Pointer>, argbuf: seq<byte>, argc: int ::
        Holds(argv, argbuf, argc, FirstArgs(Tokens(Seen(line, |line|), 0))) ==> Carries(argv, argbuf, argc, words)
  {
    hide Tokens, Written, Separated, Holds, Texts, Carries, Proper, Blanks;
    WordsAreProper(words, pieces);
    WrittenPieces(words, pieces);
    SeparatedWords(words);
    var line := lead + Flatten(pieces);
    assert Seen(line, |line|) == line;
    BlanksAre(lead);
    TokensOfLine(lead, words);
    TextsAt(words);
    assert FirstArgs(Texts(words)) == Texts(words);
    forall argv: seq<Pointer>, argbuf: seq<byte>, argc: int | Holds(argv, argbuf, argc, Texts(words))
      ensures Carries(argv, argbuf, argc, words)
    {
      HeldTexts(argv, argbuf, argc, words);
    }
  }

  lemma BlanksAre(gap: seq<byte>)
    requires forall k :: 0 <= k < |gap| ==> gap[k] in " \t\r\n"
    ensures Blanks(gap)
  {
  }

  lemma WordsAreProper(words: seq<Word>, pieces: seq<seq<byte>>)
    requires |pieces| == |words|
    requires forall k :: 0 <= k < |words| ==> (pieces[k] ==
      (if words[k].arg.Quoted? then ['"'] + words[k].arg.text + ['"'] else words[k].arg.text) + words[k].gap)
    requires forall k :: 0 <= k < |words| ==> forall j :: 0 <= j < |words[k].gap| ==> words[k].gap[j] in " \t\r\n"
    requires forall k :: 0 <= k < |words| && words[k].arg.Quoted? ==> '"' !in words[k].arg.text
    requires forall k :: 0 <= k < |words| && words[k].arg.Plain? ==>
      words[k].arg.text != [] && words[k].arg.text[0] != '"'
    requires forall k :: 0 <= k < |words| && words[k].arg.Plain? ==>
      forall j :: 0 <= j < |words[k].arg.text| ==> words[k].arg.text[j] !in " \t\r\n"
    ensures Pieces(words, pieces) && forall k :: 0 <= k < |words| ==> Proper(words[k].arg) && Blanks(words[k].gap)
  {
  }

  /** Entry k of argv points to a text that stands in the buffer with a NUL after it. */
  ghost predicate PointsTo(argv: seq<Pointer>, argbuf: seq<byte>, k: nat, text: seq<byte>) {
    && k < |argv| && argv[k].Arg? && argv[k].offset + |text| < |argbuf|
    && argbuf[argv[k].offset..argv[k].offset + |text|] == text
    && argbuf[argv[k].offset + |text|] == '\0'
  }

  ghost predicate Carries(argv: seq<Pointer>, argbuf: seq<byte>, argc: int, words: seq<Word>) {
    && argc == |words| + 1 < |argv| && argv[0] == ProgramName && argv[argc] == Null
    && forall k :: 0 <= k < |words| ==> PointsTo(argv, argbuf, k + 1, words[k].arg.text)
  }

  lemma HeldTexts(argv: seq<Pointer>, argbuf: seq<byte>, argc: int, words: seq<Word>)
    requires Holds(argv, argbuf, argc, Texts(words))
    ensures Carries(argv, argbuf, argc, words)
  {
    hide Pack, PointsTo;
    TextsAt(words);
    forall k | 0 <= k < |words|
      ensures PointsTo(argv, argbuf, k + 1, words[k].arg.text)
    {
      TextInPlace(argv, argbuf, Texts(words), k);
    }
  }

  lemma TextInPlace(argv: seq<Pointer>, argbuf: seq<byte>, tokens: seq<seq<byte>>, k: nat)
    requires PointsInto(argv, tokens) && k < |tokens|
    requires |Pack(tokens)| <= |argbuf| && argbuf[..|Pack(tokens)|] == Pack(tokens)
    ensures PointsTo(argv, argbuf, k + 1, tokens[k])
  {
    hide Pack;
    PackAt(tokens, k);
    var at := |Pack(tokens[..k])|;
    PrefixSlice(argbuf, |Pack(tokens)|, at, at + |tokens[k]|);
  }

  /** How any line is cut, in its own characters: blanks are skipped; an argument that starts with a quote goes on
      to the next quote, any other to the next blank, or to the end of the line; the character there is dropped. */
  lemma TokensInCharacters(t: seq<byte>, i: nat, j: nat, e: nat)
    requires i <= j <= |t| && (forall k :: i <= k < j ==> t[k] in " \t\r\n")
    requires j < |t| ==> t[j] !in " \t\r\n" && j < e + (if t[j] == '"' then 0 else 1) && e <= |t|
    requires j < |t| && t[j] == '"' ==> (forall k :: j < k < e ==> t[k] != '"') && (e < |t| ==> t[e] == '"')
    requires j < |t| && t[j] != '"' ==>
      (forall k :: j <= k < e ==> t[k] !in " \t\r\n") && (e < |t| ==> t[e] in " \t\r\n")
    ensures j == |t| ==> Tokens(t, i) == []
    ensures j < |t| ==>
      Tokens(t, i) == [t[if t[j] == '"' then j + 1 else j..e]] + Tokens(t, if e < |t| then e + 1 else e)
  {
    hide Tokens, IsBlank;
    forall k | 0 <= k < |t| ensures IsBlank(t[k]) <==> t[k] in " \t\r\n" { BlankNamed(t[k]); }
    SkipIs(t, i, j);
    if j == |t| {
      NothingLeft(t, i);
    } else {
      var quoted := t[j] == '"';
      var start := if quoted then j + 1 else j;
      EndIs(t, start, e, quoted);
      NextToken(t, i, start, quoted, e, if e < |t| then e + 1 else e);
    }
  }

  lemma {:induction false} SkipIs(t: seq<byte>, i: nat, j: nat)
    requires i <= j <= |t| && (forall k :: i <= k < j ==> IsBlank(t[k])) && (j < |t| ==> !IsBlank(t[j]))
    ensures SkipFrom(t, i) == j
    decreases j - i
  {
    hide IsBlank;
    if i < j { SkipIs(t, i + 1, j); }
  }
}
