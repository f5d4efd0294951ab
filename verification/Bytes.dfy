/** The machine types of the 68000 tools: bytes, LONG and ULONG, and C strings. */
module Bytes {

  /** One byte of a file or of a C `char` buffer. */
  type byte = c: char | c as int < 256 witness 'A'

  /** A NUL-terminated C string, without its terminator. */
  type CString = s: seq<byte> | '\0' !in s witness []

  datatype Option<T> = None | Some(value: T)

  const MAX_ULONG := 0xFFFF_FFFF

  type UWORD = x: int | 0 <= x <= 0xFFFF
  type ULONG = x: int | 0 <= x <= 0xFFFF_FFFF
  type LONG = x: int | -0x8000_0000 <= x <= 0x7FFF_FFFF

  /** The result of ULONG arithmetic: the value modulo 2^32. */
  function Wrap(x: int): ULONG {
    x % (MAX_ULONG + 1)
  }

  lemma WrapAdd(x: int, y: int)
    ensures Wrap(Wrap(x) + y) == Wrap(x + y)
  {
  }

  lemma Assoc<T>(a: seq<T>, b: seq<T>, c: seq<T>)
    ensures (a + b) + c == a + (b + c)
  {
  }

  /** Concatenation of a list of pieces, in order. */
  function Flatten<T>(pieces: seq<seq<T>>): seq<T> {
    if pieces == [] then [] else pieces[0] + Flatten(pieces[1..])
  }

  lemma {:induction false} FlattenAppend<T>(a: seq<seq<T>>, b: seq<seq<T>>)
    ensures Flatten(a + b) == Flatten(a) + Flatten(b)
  {
    if a == [] {
      assert a + b == b;
    } else {
      assert (a + b)[1..] == a[1..] + b;
      FlattenAppend(a[1..], b);
    }
  }

  lemma FlattenSnoc<T>(pieces: seq<seq<T>>, last: seq<T>)
    ensures Flatten(pieces + [last]) == Flatten(pieces) + last
  {
    FlattenAppend(pieces, [last]);
    assert Flatten([last]) == last + Flatten([last][1..]);
  }

  /** One list is what is left of another after dropping some elements. */
  ghost predicate Sublist<T>(a: seq<T>, b: seq<T>) {
    if a == [] then true
    else b != [] && ((a[0] == b[0] && Sublist(a[1..], b[1..])) || Sublist(a, b[1..]))
  }

  lemma {:induction false} SublistSelf<T>(a: seq<T>)
    ensures Sublist(a, a)
  {
    if a != [] { SublistSelf(a[1..]); }
  }

  lemma {:induction false} SublistConcat<T>(a: seq<T>, b: seq<T>, c: seq<T>, d: seq<T>)
    requires Sublist(a, b) && Sublist(c, d)
    ensures Sublist(a + c, b + d)
    decreases |b|
  {
    if b == [] {
      assert a + c == c && b + d == d;
    } else {
      assert (b + d)[1..] == b[1..] + d;
      if a == [] {
        SublistConcat(a, b[1..], c, d);
        assert a + c == c;
      } else if a[0] == b[0] && Sublist(a[1..], b[1..]) {
        SublistConcat(a[1..], b[1..], c, d);
        assert (a + c)[1..] == a[1..] + c;
      } else {
        SublistConcat(a, b[1..], c, d);
      }
    }
  }
}
