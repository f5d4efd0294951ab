/** Numeral parsing and printing shared by the tools. */
module Numbers {
  import opened Bytes
  import opened Streams

  /** The value of a hexadecimal digit, or -1 for any other character. */
  function DigitValue(c: char): int {
    if '0' <= c <= '9' then c as int - '0' as int
    else if 'a' <= c <= 'f' then c as int - 'a' as int + 10
    else if 'A' <= c <= 'F' then c as int - 'A' as int + 10
    else -1
  }

  type Base = b: int | b == 10 || b == 16 witness 10

  ghost predicate Digits(s: string, base: Base) {
    forall c :: c in s ==> 0 <= DigitValue(c) < base
  }

  /** The number a digit string denotes, most significant digit first. */
  ghost function Value(s: string, base: Base): nat
    requires Digits(s, base)
  {
    if s == [] then 0
    else
      assert s[|s| - 1] in s;
      assert Digits(s[..|s| - 1], base);
      Value(s[..|s| - 1], base) * base + DigitValue(s[|s| - 1])
  }

  lemma ValueStep(s: string, k: nat, base: Base)
    requires k < |s| && Digits(s[..k], base) && 0 <= DigitValue(s[k]) < base
    ensures Digits(s[..k + 1], base)
    ensures Value(s[..k + 1], base) == Value(s[..k], base) * base + DigitValue(s[k])
  {
    assert s[..k + 1] == s[..k] + [s[k]];
    assert s[..k + 1][..k] == s[..k];
  }

  lemma {:induction false} ValueMonotone(s: string, k: nat, base: Base)
    requires k <= |s| && Digits(s, base)
    ensures Digits(s[..k], base) && Value(s[..k], base) <= Value(s, base)
  {
    if k == |s| {
      assert s[..k] == s;
    } else {
      assert s[|s| - 1] in s;
      assert s[..|s| - 1][..k] == s[..k];
      assert Digits(s[..|s| - 1], base);
      ValueMonotone(s[..|s| - 1], k, base);
      assert Value(s[..|s| - 1], base) * base >= Value(s[..|s| - 1], base);
    }
  }

  /** The digits of both bases, in either case. */
  lemma DigitsNamed(c: char)
    ensures forall i :: 0 <= i < 16 ==>
      (DigitValue(c) == i <==> c == "0123456789ABCDEF"[i] || c == "0123456789abcdef"[i])
    ensures -1 <= DigitValue(c) < 16
  {
  }

  /** A leading digit counts its value times the base to the number of digits after it. */
  lemma {:induction false} ValueIsPositional(c: char, s: string, base: Base)
    requires Digits([c] + s, base)
    ensures 0 <= DigitValue(c) < base && Digits(s, base)
    ensures Value([c] + s, base) == DigitValue(c) * (if base == 10 then Pow10(|s|) else Pow16(|s|)) + Value(s, base)
    decreases |s|
  {
    var t := [c] + s;
    assert t[0] in t;
    forall d | d in s ensures d in t {}
    if s == [] {
      assert t[..0] == [];
    } else {
      var n := |s| - 1;
      assert t[..|t| - 1] == [c] + s[..n] && t[|t| - 1] == s[n];
      forall d | d in [c] + s[..n] ensures d in t {}
      ValueIsPositional(c, s[..n], base);
      PositionStep(DigitValue(c), n, Value(s[..n], base), base, DigitValue(s[n]));
    }
  }

  lemma PositionStep(d: nat, n: nat, v: nat, base: Base, last: int)
    ensures (d * (if base == 10 then Pow10(n) else Pow16(n)) + v) * base + last
         == d * (if base == 10 then Pow10(n + 1) else Pow16(n + 1)) + (v * base + last)
  {
    if base == 10 {
      assert d * Pow10(n + 1) == d * Pow10(n) * 10;
    } else {
      assert base == 16;
      assert d * Pow16(n + 1) == d * Pow16(n) * 16;
    }
  }

  /** The guard of parse_u32 rejects exactly the steps that would leave 32 bits. */
  lemma OverflowGuard(v: ULONG, digit: int, base: Base)
    requires 0 <= digit < base
    ensures v > (MAX_ULONG - digit) / base <==> v * base + digit > MAX_ULONG
  {
    if base == 10 {
    } else {
      assert base == 16;
    }
  }

  // ---------------------------------------------------------------- parsing

  predicate HexPrefix(s: string) {
    |s| >= 2 && s[0] == '0' && (s[1] == 'x' || s[1] == 'X')
  }

  ghost predicate IsNumeral(s: string) {
    if HexPrefix(s) then |s| > 2 && Digits(s[2..], 16) else s != [] && Digits(s, 10)
  }

  ghost function NumeralValue(s: string): nat
    requires IsNumeral(s)
  {
    if HexPrefix(s) then Value(s[2..], 16) else Value(s, 10)
  }

  /** The two forms of a numeral: decimal digits, or 0x or 0X and at least one hexadecimal digit. */
  lemma NumeralForms(t: string)
    ensures IsNumeral("0x" + t) <==> t != "" && Digits(t, 16)
    ensures IsNumeral("0X" + t) <==> t != "" && Digits(t, 16)
    ensures t != "" && Digits(t, 16) ==>
      NumeralValue("0x" + t) == NumeralValue("0X" + t) == Value(t, 16)
    ensures t != "" && Digits(t, 10) ==> IsNumeral(t) && NumeralValue(t) == Value(t, 10)
  {
    hide Value;
    assert ("0x" + t)[2..] == t && ("0X" + t)[2..] == t;
    if |t| >= 2 { assert t[1] in t; }
  }

  /** Hex's argument parser: accepts exactly the decimal and 0x numerals that fit 32 bits. */
  method ParseU32(s: CString) returns (ok: bool, value: ULONG)
    ensures ok <==> IsNumeral(s) && NumeralValue(s) <= MAX_ULONG
    ensures ok ==> value == NumeralValue(s)
  {
    if |s| == 0 { return false, 0; }
    var base: Base := 10;
    var rest: string := s;
    if HexPrefix(s) {
      base := 16;
      rest := s[2..];
      if |rest| == 0 { return false, 0; }
    }
    ok, value := ParseDigits(rest, base);
  }

  lemma BadDigit(s: string, k: nat, base: Base)
    requires k < |s| && !(0 <= DigitValue(s[k]) < base)
    ensures !Digits(s, base)
  {
    assert s[k] in s;
  }

  /** The digit classification of parse_u32; its later test `digit >= base` can never succeed. */
  method ReadDigit(c: char, base: Base) returns (digit: int)
    ensures digit >= 0 <==> 0 <= DigitValue(c) < base
    ensures digit >= 0 ==> digit == DigitValue(c)
  {
    if '0' <= c <= '9' {
      digit := c as int - '0' as int;
    } else if base == 16 && 'a' <= c <= 'f' {
      digit := c as int - 'a' as int + 10;
    } else if base == 16 && 'A' <= c <= 'F' {
      digit := c as int - 'A' as int + 10;
    } else {
      digit := -1;
    }
  }

  /** The digit loop of parse_u32. */
  method ParseDigits(s: string, base: Base) returns (ok: bool, v: ULONG)
    ensures ok <==> Digits(s, base) && Value(s, base) <= MAX_ULONG
    ensures ok ==> v == Value(s, base)
  {
    v := 0;
    var k := 0;
    assert Digits(s[..0], base) && Value(s[..0], base) == 0;
    hide Digits, Value, DigitValue;
    while k < |s|
      invariant 0 <= k <= |s|
      invariant Digits(s[..k], base) && v == Value(s[..k], base)
    {
      var digit := ReadDigit(s[k], base);
      if digit < 0 {
        BadDigit(s, k, base);
        return false, 0;
      }
      ValueStep(s, k, base);
      OverflowGuard(v, digit, base);
      if v > (MAX_ULONG - digit) / base {
        if Digits(s, base) { ValueMonotone(s, k + 1, base); }
        return false, 0;
      }
      v := v * base + digit;
      k := k + 1;
    }
    assert s[..k] == s;
    return true, v;
  }

  const COUNT_LIMIT := 32767

  /** What all three parse_count functions accept: decimal numerals up to 32767. */
  ghost predicate IsCount(s: string) {
    s != [] && Digits(s, 10) && Value(s, 10) <= 32767
  }

  lemma TooBig(s: string, k: nat)
    requires k < |s| && Digits(s[..k], 10) && '0' <= s[k] <= '9'
    requires Value(s[..k], 10) * 10 + DigitValue(s[k]) > COUNT_LIMIT
    ensures !IsCount(s)
  {
    ValueStep(s, k, 10);
    if Digits(s, 10) { ValueMonotone(s, k + 1, 10); }
  }

  lemma AllDigits(s: string)
    requires s != [] && Digits(s[..|s|], 10) && Value(s[..|s|], 10) <= COUNT_LIMIT
    ensures IsCount(s) && Value(s[..|s|], 10) == Value(s, 10)
  {
    assert s[..|s|] == s;
  }

  lemma NotDigits(s: string, k: nat)
    requires k < |s| && !('0' <= s[k] <= '9')
    ensures !IsCount(s)
  {
    assert s[k] in s;
  }

  /** One more decimal digit: the new value, and what it means for the limit. */
  lemma NextDecimal(s: string, k: nat)
    requires k < |s| && Digits(s[..k], 10) && '0' <= s[k] <= '9'
    ensures Digits(s[..k + 1], 10)
    ensures Value(s[..k + 1], 10) == Value(s[..k], 10) * 10 + (s[k] as int - '0' as int)
    ensures Value(s[..k + 1], 10) > COUNT_LIMIT ==> !IsCount(s)
  {
    hide *;
    DecimalDigitValue(s[k]);
    ValueStep(s, k, 10);
    if Value(s[..k + 1], 10) > COUNT_LIMIT { TooBig(s, k); }
  }

  lemma NoDigits(s: string)
    ensures Digits(s[..0], 10) && Value(s[..0], 10) == 0
    ensures IsCount(s) ==> Digits(s, 10)
  {
  }

  /** Head's and Tail's parse_count: accumulates first and tests the limit afterwards. */
  method ParseLineCount(s: CString) returns (value: LONG)
    ensures value >= 0 <==> IsCount(s)
    ensures value >= 0 ==> Digits(s, 10) && value == Value(s, 10)
    ensures value < 0 ==> value == -1
  {
    hide Digits, Value, IsCount;
    value := 0;
    if |s| == 0 {
      Empty(s);
      return -1;
    }
    NoDigits(s);
    var k := 0;
    while k < |s|
      invariant 0 <= k <= |s| && Digits(s[..k], 10)
      invariant 0 <= value == Value(s[..k], 10) <= COUNT_LIMIT
    {
      if s[k] < '0' || s[k] > '9' {
        NotDigits(s, k);
        return -1;
      }
      NextDecimal(s, k);
      value := value * 10 + (s[k] as int - '0' as int);
      if value > COUNT_LIMIT { return -1; }
      k := k + 1;
    }
    AllDigits(s);
  }

  lemma Empty(s: string)
    requires s == ""
    ensures !IsCount(s)
  {
  }

  /** Strings' parse_count: guards each step so that the product never exceeds the limit. */
  method ParseMinimum(s: CString) returns (ok: bool, value: ULONG)
    ensures ok <==> IsCount(s)
    ensures ok ==> Digits(s, 10) && value == Value(s, 10)
  {
    hide Digits, Value, IsCount;
    if |s| == 0 {
      Empty(s);
      return false, 0;
    }
    NoDigits(s);
    var v: ULONG := 0;
    var k := 0;
    while k < |s|
      invariant 0 <= k <= |s| && Digits(s[..k], 10)
      invariant v == Value(s[..k], 10) <= COUNT_LIMIT
    {
      if s[k] < '0' || s[k] > '9' {
        NotDigits(s, k);
        return false, 0;
      }
      NextDecimal(s, k);
      var digit := s[k] as int - '0' as int;
      if v > 3276 || (v == 3276 && digit > 7) { return false, 0; }
      v := v * 10 + digit;
      k := k + 1;
    }
    AllDigits(s);
    return true, v;
  }

  lemma DecimalDigitValue(c: char)
    requires '0' <= c <= '9'
    ensures DigitValue(c) == c as int - '0' as int
  {
  }

  // --------------------------------------------------------------- printing

  function DecimalDigit(d: int): (c: byte)
    requires 0 <= d < 10
    ensures DigitValue(c) == d && '0' <= c <= '9'
  {
    ('0' as int + d) as char
  }

  /** The canonical decimal numeral of a number. */
  ghost function Decimal(v: nat): (s: seq<byte>)
    ensures s != []
    ensures forall c :: c in s ==> '0' <= c <= '9'
  {
    if v < 10 then [DecimalDigit(v)] else Decimal(v / 10) + [DecimalDigit(v % 10)]
  }

  /** A decimal numeral reads back as the number it was printed from, and has no leading zero. */
  lemma {:induction false} DecimalReadsBack(v: nat)
    ensures Digits(Decimal(v), 10) && Value(Decimal(v), 10) == v
    ensures v != 0 ==> Decimal(v)[0] != '0'
    ensures v == 0 ==> Decimal(v) == "0"
  {
    var s := Decimal(v);
    if v >= 10 {
      DecimalReadsBack(v / 10);
      assert s[..|s| - 1] == Decimal(v / 10);
    } else {
      assert s[..0] == [];
    }
  }

  /** A text is the decimal numeral of a number, without needless zeros. */
  ghost predicate IsDecimal(text: seq<byte>, v: nat) {
    && text != [] && (forall c :: c in text ==> '0' <= c <= '9')
    && Digits(text, 10) && Value(text, 10) == v
    && (text[0] == '0' ==> |text| == 1)
  }

  lemma DecimalIs(v: nat)
    ensures IsDecimal(Decimal(v), v)
  {
    DecimalReadsBack(v);
  }

  lemma DecimalInjective(v: nat, w: nat)
    requires Decimal(v) == Decimal(w)
    ensures v == w
  {
    DecimalReadsBack(v);
    DecimalReadsBack(w);
  }

  function Pow10(n: nat): nat {
    if n == 0 then 1 else 10 * Pow10(n - 1)
  }

  lemma {:induction false} DecimalLength(v: nat, n: nat)
    requires v < Pow10(n) && n > 0
    ensures |Decimal(v)| <= n
  {
    if v >= 10 { DecimalLength(v / 10, n - 1); }
  }

  /** A 32-bit number has at most ten decimal digits. */
  lemma ULongLength(v: ULONG)
    ensures 1 <= |Decimal(v)| <= 10
  {
    assert Pow10(10) == 10_000_000_000;
    DecimalLength(v, 10);
  }

  /** The digits still to come when the number is printed from its last digit on. */
  ghost function Ahead(v: nat): seq<byte> {
    if v == 0 then [] else Decimal(v)
  }

  lemma FirstDigit(value: nat)
    ensures Decimal(value) == Ahead(value / 10) + [DecimalDigit(value % 10)]
  {
  }

  /** One more digit in front of those already in the buffer, and room for it. */
  lemma NextDigit(v: nat, room: nat, suffix: seq<byte>, value: ULONG)
    requires v > 0 && Decimal(value) == Ahead(v) + suffix && room + |suffix| == 10
    ensures room > 0 && Decimal(value) == Ahead(v / 10) + ([DecimalDigit(v % 10)] + suffix)
  {
    ULongLength(value);
    FirstDigit(v);
    hide Decimal;
    assert Ahead(v) == Ahead(v / 10) + [DecimalDigit(v % 10)];
  }

  /** ai_put_u32: digits are produced right to left in an 11-byte buffer. */
  method PutU32(out: Sink, value: ULONG)
    modifies out
    ensures out.Appended(old(out.written), old(out.failed), Decimal(value))
  {
    var buf := new byte[11];
    var i := 10;
    buf[i] := '\0';
    ULongLength(value);
    i := i - 1;
    FirstDigit(value);
    buf[i] := DecimalDigit(value % 10);
    var v := value / 10;
    hide Decimal, Ahead;
    assert buf[i..10] == [DecimalDigit(value % 10)];
    while v != 0
      modifies buf
      invariant 0 <= i <= 9 && 0 <= v <= value
      invariant Decimal(value) == Ahead(v) + buf[i..10]
      invariant buf[10] == '\0'
    {
      NextDigit(v, i, buf[i..10], value);
      ghost var suffix := buf[i..10];
      ghost var digit := DecimalDigit(v % 10);
      i := i - 1;
      buf[i] := DecimalDigit(v % 10);
      v := v / 10;
      assert buf[i..10] == [digit] + suffix;
    }
    out.Puts(buf[i..10]);
  }

  /** A number after a label. */
  method PutField(out: Sink, title: seq<byte>, value: ULONG)
    modifies out
    ensures out.Appended(old(out.written), old(out.failed), title + Decimal(value))
  {
    hide Decimal;
    out.Puts(title);
    PutU32(out, value);
  }

  /** The signed decimal numeral of a LONG. */
  ghost function SignedDecimal(v: int): seq<byte> {
    if v < 0 then ['-'] + Decimal(-v) else Decimal(v)
  }

  ghost predicate IsSignedNumeral(s: string) {
    s != [] && if s[0] == '-' then |s| > 1 && Digits(s[1..], 10) else Digits(s, 10)
  }

  ghost function SignedValue(s: string): int
    requires IsSignedNumeral(s)
  {
    if s[0] == '-' then 0 - Value(s[1..], 10) else Value(s, 10)
  }

  lemma SignedReadsBack(v: int)
    ensures IsSignedNumeral(SignedDecimal(v)) && SignedValue(SignedDecimal(v)) == v
  {
    if v < 0 {
      DecimalReadsBack(-v);
      assert SignedDecimal(v)[1..] == Decimal(-v);
    } else {
      DecimalReadsBack(v);
      assert Decimal(v)[0] in Decimal(v);
    }
  }

  /** ai_put_s32: the magnitude is formed without negating the least LONG. */
  method PutS32(out: Sink, value: LONG)
    modifies out
    ensures out.Appended(old(out.written), old(out.failed), if value < 0 then "-" + Decimal(-(value as int)) else Decimal(value))
  {
    hide Decimal;
    if value < 0 {
      var bumped: LONG := value + 1;
      var flipped: LONG := -bumped;
      var magnitude: ULONG := flipped + 1;
      PutField(out, ['-'], magnitude);
    } else {
      PutU32(out, value);
    }
  }

  ghost function VersionText(version: nat, revision: nat): seq<byte> {
    Decimal(version) + ['.'] + Decimal(revision)
  }

  /** ai_put_version: two numerals around a dot. */
  method PutVersion(out: Sink, version: UWORD, revision: UWORD)
    modifies out
    ensures out.Appended(old(out.written), old(out.failed), Decimal(version) + "." + Decimal(revision))
  {
    hide Decimal;
    PutU32(out, version);
    PutField(out, ['.'], revision);
  }

  /** The dot is no digit, so different versions are printed differently. */
  lemma VersionInjective(v: nat, r: nat, v': nat, r': nat)
    requires VersionText(v, r) == VersionText(v', r')
    ensures v == v' && r == r'
  {
    var a, b := VersionText(v, r), VersionText(v', r');
    DotAfter(v, r);
    DotAfter(v', r');
    assert a[|Decimal(v')|] == b[|Decimal(v)|] == '.';
    hide Decimal;
    assert a[..|Decimal(v)|] == Decimal(v) && b[..|Decimal(v')|] == Decimal(v');
    assert a[|Decimal(v)| + 1..] == Decimal(r) && b[|Decimal(v')| + 1..] == Decimal(r');
    DecimalInjective(v, v');
    DecimalInjective(r, r');
  }

  lemma DotAfter(v: nat, r: nat)
    ensures |Decimal(v)| < |VersionText(v, r)| && VersionText(v, r)[|Decimal(v)|] == '.'
    ensures forall k :: 0 <= k < |Decimal(v)| ==> VersionText(v, r)[k] != '.'
  {
    forall k | 0 <= k < |Decimal(v)| ensures VersionText(v, r)[k] != '.' {
      assert VersionText(v, r)[k] == Decimal(v)[k] && Decimal(v)[k] in Decimal(v);
    }
  }

  /** A decimal printed by ai_put_u32 is accepted by Hex's parser with the same value. */
  lemma PrintedDecimalParses(v: ULONG)
    ensures IsNumeral(Decimal(v)) && NumeralValue(Decimal(v)) == v
  {
    DecimalReadsBack(v);
    assert !HexPrefix(Decimal(v)) by {
      if |Decimal(v)| >= 2 { assert Decimal(v)[1] in Decimal(v); }
    }
  }

  // ------------------------------------------------------------ hexadecimal

  function HexDigit(d: int): (c: byte)
    requires 0 <= d < 16
    ensures DigitValue(c) == d && c != ' ' && c != '\n'
  {
    "0123456789ABCDEF"[d]
  }

  /** The n least significant hexadecimal digits of v. */
  ghost function HexDigits(v: nat, n: nat): (s: seq<byte>)
    ensures |s| == n
  {
    if n == 0 then [] else HexDigits(v / 16, n - 1) + [HexDigit(v % 16)]
  }

  function Pow16(n: nat): nat {
    if n == 0 then 1 else 16 * Pow16(n - 1)
  }

  lemma {:induction false} HexReadsBack(v: nat, n: nat)
    requires v < Pow16(n)
    ensures Digits(HexDigits(v, n), 16) && Value(HexDigits(v, n), 16) == v
  {
    var s := HexDigits(v, n);
    if n == 0 {
    } else {
      HexReadsBack(v / 16, n - 1);
      assert s[..n - 1] == HexDigits(v / 16, n - 1);
    }
  }

  /** "0x" followed by the eight digits of put_hex32 parses back to the number. */
  lemma PrintedHexParses(v: ULONG)
    ensures Value.requires(HexDigits(v, 8), 16) && Value(HexDigits(v, 8), 16) == v
    ensures IsNumeral("0x" + HexDigits(v, 8)) && NumeralValue("0x" + HexDigits(v, 8)) == v
  {
    assert Pow16(8) == 0x1_0000_0000;
    HexReadsBack(v, 8);
    assert ("0x" + HexDigits(v, 8))[2..] == HexDigits(v, 8);
  }

  /** put_hex8: the two digits of a byte. */
  method PutHex8(p: array<byte>, at: nat, value: nat)
    requires at + 2 <= p.Length && value < 256
    modifies p
    ensures p[..at + 2] == old(p[..at]) + HexDigits(value, 2)
  {
    ghost var before := p[..at];
    p[at] := HexDigit(value / 16 % 16);
    p[at + 1] := HexDigit(value % 16);
    assert HexDigits(value, 2) == HexDigits(value / 16, 1) + [HexDigit(value % 16)];
    assert HexDigits(value / 16, 1) == [] + [HexDigit(value / 16 % 16)];
    assert p[..at] == before;
  }

  /** put_hex32: eight digits, least significant first, into a window of a line buffer. */
  method PutHex32(p: array<byte>, at: nat, value: ULONG)
    requires at + 8 <= p.Length
    modifies p
    ensures p[..at + 8] == old(p[..at]) + HexDigits(value, 8)
  {
    ghost var before := p[..at];
    var i := 7;
    var v := value;
    while i >= 0
      invariant -1 <= i <= 7 && 0 <= v
      invariant p[..at] == before
      invariant HexDigits(value, 8) == HexDigits(v, i + 1) + p[at + i + 1..at + 8]
    {
      ghost var suffix := p[at + i + 1..at + 8];
      p[at + i] := HexDigit(v % 16);
      assert p[at + i..at + 8] == [HexDigit(v % 16)] + suffix;
      v := v / 16;
      i := i - 1;
    }
    assert p[..at + 8] == p[..at] + p[at..at + 8];
  }
}
