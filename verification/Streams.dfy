/** The part of dos.library the stream tools use: Read, Write and Seek on open handles.
    The answers are nondeterministic: a read may be short or fail at any point, and a write
    may stop early.  Ghost flags record whether that happened. */
module Streams {
  import opened Bytes

  function Min(a: int, b: int): int {
    if a <= b then a else b
  }

  /** A file opened for reading. */
  class InFile {
    const contents: seq<byte>
    var pos: nat
    ghost var failed: bool  // some Read or Seek reported an error
    ghost var short: bool   // some Read returned fewer bytes than were asked for and present

    constructor (contents: seq<byte>)
      ensures this.contents == contents && pos == 0 && !failed && !short
    {
      this.contents := contents;
      pos, failed, short := 0, false, false;
    }

    /** Delivers between one and n bytes, 0 at the end of the file, or -1. */
    method Read(buf: array<byte>, n: nat) returns (got: LONG)
      requires n <= buf.Length && n <= 0x7FFF_FFFF && pos <= |contents|
      modifies this, buf
      ensures pos <= |contents|
      ensures got < 0 ==> got == -1 && failed && short == old(short)
      ensures got >= 0 ==> failed == old(failed)
      ensures got >= 0 ==> got <= Min(n, |contents| - old(pos)) && pos == old(pos) + got
      ensures got >= 0 ==> buf[..got] == contents[old(pos)..pos]
      ensures got == 0 <==> got >= 0 && Min(n, |contents| - old(pos)) == 0
      ensures got >= 0 ==> short == (old(short) || got < Min(n, |contents| - old(pos)))
    {
      var most := Min(n, |contents| - pos);
      var ok: bool := *;
      if !ok {
        failed := true;
        return -1;
      }
      got :| 0 <= got <= most && (got == 0 ==> most == 0);
      forall k | 0 <= k < got {
        buf[k] := contents[pos + k];
      }
      short := short || got < most;
      pos := pos + got;
    }

    /** Seek(fh, target, OFFSET_BEGINNING): the old position, or -1. */
    method SeekTo(target: LONG) returns (r: LONG)
      requires 0 <= target && pos <= |contents|
      modifies this
      ensures pos <= |contents| && short == old(short)
      ensures r < 0 ==> failed
      ensures r >= 0 ==> pos == target && failed == old(failed)
    {
      var ok: bool := *;
      if !ok || target > |contents| || pos > 0x7FFF_FFFF {
        failed := true;
        return -1;
      }
      r := pos;
      pos := target;
    }

    /** Seek(fh, 0, OFFSET_END): the old position, or -1. */
    method SeekEnd() returns (r: LONG)
      requires pos <= |contents|
      modifies this
      ensures pos <= |contents| && short == old(short)
      ensures r < 0 ==> failed
      ensures r >= 0 ==> pos == |contents| && failed == old(failed)
    {
      var ok: bool := *;
      if !ok || pos > 0x7FFF_FFFF {
        failed := true;
        return -1;
      }
      r := pos;
      pos := |contents|;
    }

    /** Seek(fh, 0, OFFSET_CURRENT): the position, or -1. */
    method Tell() returns (r: LONG)
      requires pos <= |contents|
      modifies this
      ensures pos == old(pos) && short == old(short)
      ensures r < 0 ==> failed
      ensures r >= 0 ==> r == pos && failed == old(failed)
    {
      var ok: bool := *;
      if !ok || pos > 0x7FFF_FFFF {
        failed := true;
        return -1;
      }
      r := pos;
    }
  }

  /** An output handle; `written` is everything that reached it. */
  class Sink {
    ghost var written: seq<byte>
    ghost var failed: bool  // some Write was incomplete

    constructor ()
      ensures written == [] && !failed
    {
      written, failed := [], false;
    }

    /** Writes a prefix of the data and reports its length, or -1 on an error. */
    method Write(data: seq<byte>) returns (wrote: int)
      modifies this
      ensures wrote <= |data|
      ensures old(written) <= written <= old(written) + data
      ensures wrote == |data| ==> written == old(written) + data && failed == old(failed)
      ensures wrote != |data| ==> failed
    {
      var reached: nat :| reached <= |data|;
      written := written + data[..reached];
      var reported: bool := *;
      if reached == |data| && reported {
        return |data|;
      }
      failed := true;
      return -1;
    }

    /** The effect of output whose completeness nobody checks. */
    ghost predicate Appended(before: seq<byte>, failedBefore: bool, text: seq<byte>)
      reads this
    {
      && (failedBefore ==> failed)
      && before <= written
      && (!failed ==> written == before + text)
    }

    /** ai_puts: writes a string and ignores the outcome. */
    method Puts(text: seq<byte>)
      modifies this
      ensures Appended(old(written), old(failed), text)
    {
      if |text| > 0 {
        var _ := Write(text);
      }
    }

    /** ai_puts once more, after output already accounted for. */
    method PutsMore(text: seq<byte>, ghost before: seq<byte>, ghost failedBefore: bool, ghost sofar: seq<byte>)
      requires Appended(before, failedBefore, sofar)
      modifies this
      ensures Appended(before, failedBefore, sofar + text)
    {
      Assoc(before, sofar, text);
      Puts(text);
    }
  }
}
