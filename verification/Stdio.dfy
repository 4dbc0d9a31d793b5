/** Buffered streams: one buffer shared by reads and writes over a seekable file,
    against plain positioned I/O. */
module Stdio {
  import opened Bytes

  const EOF: int := -1
  const NEWLINE: byte := 10

  // ----- plain positioned I/O: the reference -----

  /** a file and one offset */
  datatype Plain = Plain(data: seq<byte>, pos: nat)

  /** bytes written at an offset; a gap beyond the end reads as zeros */
  function Overlay(f: seq<byte>, at: nat, b: seq<byte>): seq<byte> {
    if b == [] then f
    else if at > |f| then f + Zeros(at - |f|) + b
    else if at + |b| >= |f| then f[..at] + b
    else f[..at] + b + f[at + |b|..]
  }

  function Available(p: Plain): nat { if p.pos < |p.data| then |p.data| - p.pos else 0 }

  function Min(a: nat, b: nat): nat { if a < b then a else b }

  function PlainWrite(p: Plain, b: seq<byte>): Plain { Plain(Overlay(p.data, p.pos, b), p.pos + |b|) }

  /** the next n bytes, or as many as there are */
  function Next(p: Plain, n: nat): (r: seq<byte>)
    ensures |r| == Min(n, Available(p))
  {
    if p.pos < |p.data| then p.data[p.pos..p.pos + Min(n, Available(p))] else []
  }

  function PlainRead(p: Plain, n: nat): Plain { p.(pos := p.pos + Min(n, Available(p))) }

  datatype Whence = Set | Cur | End

  function SeekTarget(p: Plain, offset: int, w: Whence): int {
    match w
    case Set => offset
    case Cur => p.pos + offset
    case End => |p.data| + offset
  }

  lemma OverlayByte(f: seq<byte>, at: nat, b: seq<byte>, i: nat)
    ensures |Overlay(f, at, b)| == if b == [] then |f| else if at + |b| >= |f| then at + |b| else |f|
    ensures i < |Overlay(f, at, b)| ==>
      Overlay(f, at, b)[i] == if at <= i < at + |b| then b[i - at] else if i < |f| then f[i] else 0
  {
  }

  /** two writes in a row are one write */
  lemma OverlayJoin(f: seq<byte>, at: nat, a: seq<byte>, b: seq<byte>)
    ensures Overlay(Overlay(f, at, a), at + |a|, b) == Overlay(f, at, a + b)
  {
    var g := Overlay(f, at, a);
    var x, y := Overlay(g, at + |a|, b), Overlay(f, at, a + b);
    OverlayByte(f, at, a, 0);
    OverlayByte(g, at + |a|, b, 0);
    OverlayByte(f, at, a + b, 0);
    forall i | 0 <= i < |x| ensures x[i] == y[i] {
      OverlayByte(f, at, a, i);
      OverlayByte(g, at + |a|, b, i);
      OverlayByte(f, at, a + b, i);
    }
  }

  /** one read after another */
  lemma NextJoin(p: Plain, m: nat, n: nat)
    ensures Next(p, m) + Next(PlainRead(p, m), n) == Next(p, m + n)
    ensures PlainRead(PlainRead(p, m), n) == PlainRead(p, m + n)
  {
    var q := PlainRead(p, m);
    if q.pos < |q.data| {
      var k := Min(n, Available(q));
      assert Next(p, m) == p.data[p.pos..q.pos] && Next(q, n) == p.data[q.pos..q.pos + k];
      assert Next(p, m + n) == p.data[p.pos..q.pos + k];
    } else {
      assert Next(q, n) == [] && Available(p) <= m;
      assert Next(p, m) == Next(p, m + n);
    }
  }

  lemma SliceJoin(b: seq<byte>, i: nat, n: nat)
    requires i + n <= |b|
    ensures b[..i] + b[i..][..n] == b[..i + n]
  {
  }

  /** read-ahead handed out in part */
  lemma AheadSplit(file: seq<byte>, off: nat, ahead: seq<byte>, n: nat)
    requires |ahead| <= off <= |file| && ahead == file[off - |ahead|..off] && n <= |ahead|
    ensures ahead[..n] == file[off - |ahead|..off - |ahead| + n] && ahead[n..] == file[off - |ahead| + n..off]
  {
  }

  /** how many bytes of a line-buffered stream are pending after one more: a full buffer
      goes out before the byte is stored, and a newline takes everything with it */
  function PendingNext(used: nat, size: nat, c: byte): nat {
    if c == NEWLINE then 0 else if used >= size then 1 else used + 1
  }

  function Pending(used: nat, size: nat, b: seq<byte>): nat
    decreases |b|
  {
    if b == [] then used else PendingNext(Pending(used, size, b[..|b| - 1]), size, b[|b| - 1])
  }

  /** Bytes that fit and hold no newline stay; a newline at the end leaves nothing. */
  lemma {:induction false} PendingStays(used: nat, size: nat, b: seq<byte>)
    requires used + |b| <= size && NEWLINE !in b
    ensures Pending(used, size, b) == used + |b|
    decreases |b|
  {
    if b != [] { PendingStays(used, size, b[..|b| - 1]); }
  }

  lemma PendingLine(used: nat, size: nat, b: seq<byte>)
    ensures Pending(used, size, b + [NEWLINE]) == 0
  {
    assert (b + [NEWLINE])[|b|] == NEWLINE;
  }

  /** of the bytes all, to be written at off0 into f0, pend is still to come and file
      has the others */
  predicate PartOut(file: seq<byte>, off: nat, pend: seq<byte>, f0: seq<byte>, off0: nat, all: seq<byte>) {
    && |pend| <= |all| && var n := |all| - |pend|;
    && pend == all[n..] && file == Overlay(f0, off0, all[..n]) && off == off0 + n
  }

  lemma PartStart(f0: seq<byte>, off0: nat, pend: seq<byte>)
    ensures PartOut(f0, off0, pend, f0, off0, pend)
  {
    assert pend[..0] == [];
  }

  lemma PartAll(f0: seq<byte>, off0: nat, all: seq<byte>)
    ensures PartOut(Overlay(f0, off0, all), off0 + |all|, [], f0, off0, all)
  {
    assert all[..|all|] == all;
  }

  /** When no newline is pending, every line written is in the file, its newline
      included. */
  lemma LinesOut(file: seq<byte>, off: nat, pend: seq<byte>, f0: seq<byte>, off0: nat, all: seq<byte>, i: nat, j: nat)
    requires PartOut(file, off, pend, f0, off0, all) && NEWLINE !in pend && j <= i < |all| && all[i] == NEWLINE
    ensures off0 + j < |file| && file[off0 + j] == all[j]
  {
    var n := |all| - |pend|;
    forall k | n <= k < |all| ensures all[k] != NEWLINE { assert all[k] == pend[k - n]; }
    OverlayByte(f0, off0, all[..n], off0 + j);
  }

  lemma PartStore(file: seq<byte>, off: nat, pend: seq<byte>, f0: seq<byte>, off0: nat, all: seq<byte>, c: byte)
    requires PartOut(file, off, pend, f0, off0, all)
    ensures PartOut(file, off, pend + [c], f0, off0, all + [c])
  {
    var n := |all| - |pend|;
    assert (all + [c])[..n] == all[..n] && (all + [c])[n..] == all[n..] + [c];
  }

  lemma PartFlush(file: seq<byte>, off: nat, pend: seq<byte>, f0: seq<byte>, off0: nat, all: seq<byte>)
    requires PartOut(file, off, pend, f0, off0, all)
    ensures PartOut(Overlay(file, off, pend), off + |pend|, [], f0, off0, all)
  {
    var n := |all| - |pend|;
    OverlayJoin(f0, off0, all[..n], all[n..]);
    assert all[..n] + all[n..] == all && all[..|all|] == all;
  }

  lemma OneMore(was: seq<byte>, b: seq<byte>, i: nat)
    requires i < |b|
    ensures was + b[..i] + [b[i]] == was + b[..i + 1] && b[i..][..1] == [b[i]]
  {
  }

  lemma PendingStep(used: nat, size: nat, b: seq<byte>, i: nat)
    requires i < |b|
    ensures Pending(used, size, b[..i + 1]) == PendingNext(Pending(used, size, b[..i]), size, b[i])
  {
    assert b[..i + 1][..i] == b[..i];
  }

  // ----- the stream -----

  class Stream {
    /** shared by pending writes (from the front) and read-ahead */
    const buf: array<byte>
    var bufUsed: nat
    var readPtr: nat
    var readEnd: nat
    var err: bool
    var eof: bool
    const sync: bool
    /** the kernel's side: file contents and descriptor offset */
    var file: seq<byte>
    var off: nat

    /** the file and position the client sees */
    ghost function Abs(): Plain
      reads this, buf
      requires bufUsed <= buf.Length && readPtr <= readEnd <= buf.Length && readEnd - readPtr <= off
    {
      if bufUsed > 0 then Plain(Overlay(file, off, buf[..bufUsed]), off + bufUsed)
      else Plain(file, off - (readEnd - readPtr))
    }

    /** Pending writes and read-ahead exclude each other, read-ahead agrees with
        the file, and the end-of-file flag is only up at the end of the file. */
    ghost predicate Valid()
      reads this, buf
    {
      && bufUsed <= buf.Length && readPtr <= readEnd <= buf.Length && readEnd - readPtr <= off
      && (bufUsed > 0 ==> readPtr == readEnd)
      && (readPtr < readEnd ==> off <= |file| && buf[readPtr..readEnd] == file[off - (readEnd - readPtr)..off])
      && (eof ==> Available(Abs()) == 0)
    }

    /** between calls an unbuffered stream has nothing pending and a buffered one no
        newline */
    ghost predicate Lines()
      reads this, buf
      requires bufUsed <= buf.Length
    {
      if sync then bufUsed == 0 else NEWLINE !in buf[..bufUsed]
    }

    /** of the bytes all, to be written at off0 into f0, the last ones are pending and
        the kernel has the others */
    ghost predicate Wrote(f0: seq<byte>, off0: nat, all: seq<byte>)
      reads this, buf
      requires bufUsed <= buf.Length
    {
      PartOut(file, off, buf[..bufUsed], f0, off0, all)
    }

    /** fopen on an existing descriptor */
    constructor (f: seq<byte>, at: nat, size: nat, unbuffered: bool)
      requires size > 0
      ensures Valid() && fresh(buf) && Abs() == Plain(f, at) && !err && !eof && buf.Length == size && sync == unbuffered
      ensures Lines()
    {
      buf := new byte[size](_ => 0);
      bufUsed, readPtr, readEnd := 0, 0, 0;
      err, eof := false, false;
      sync := unbuffered;
      file, off := f, at;
    }

    // ----- the kernel -----

    /** write(2): takes some of the bytes, at least one */
    method KernelWrite(b: seq<byte>) returns (n: nat)
      requires |b| > 0
      modifies this`file, this`off
      ensures 1 <= n <= |b| && file == Overlay(old(file), old(off), b[..n]) && off == old(off) + n
    {
      n :| 1 <= n <= |b|;
      file := Overlay(file, off, b[..n]);
      off := off + n;
    }

    /** read(2): some of the bytes asked for, at least one unless at the end */
    method KernelRead(max: nat) returns (b: seq<byte>)
      requires max > 0
      modifies this`off
      ensures |b| <= max && (|b| == 0 <==> old(off) >= |file|)
      ensures off == old(off) + |b| && (|b| > 0 ==> off <= |file| && b == file[old(off)..off])
    {
      if off >= |file| {
        b := [];
      } else {
        var most := |file| - off;
        if most > max { most := max; }
        var n: nat :| 1 <= n <= most;
        b := file[off..off + n];
        off := off + n;
      }
    }

    /** lseek(2): refuses a negative offset */
    method KernelSeek(offset: int, w: Whence) returns (r: int)
      modifies this`off
      ensures
        var t := SeekTarget(Plain(file, old(off)), offset, w);
        if t < 0 then r == -1 && off == old(off) else r == t && off == t
    {
      var from := match w case Set => 0 case Cur => off case End => |file|;
      r := from + offset;
      if r < 0 { r := -1; } else { off := r; }
    }

    // ----- flushing -----

    /** __stdio_flush_wbuf, whatever portions write() takes */
    method FlushWbuf()
      requires Valid()
      modifies this`bufUsed, this`file, this`off
      ensures Valid() && Abs() == old(Abs()) && bufUsed == 0
      ensures (old(bufUsed) == 0 ==> file == old(file) && off == old(off))
    {
      if bufUsed == 0 { return; }
      WriteOut(buf[..bufUsed]);
      bufUsed := 0;
    }

    /** the write loop */
    method WriteOut(pending: seq<byte>)
      modifies this`file, this`off
      ensures file == Overlay(old(file), old(off), pending) && off == old(off) + |pending|
    {
      var p := 0;
      while p < |pending|
        invariant 0 <= p <= |pending|
        invariant file == Overlay(old(file), old(off), pending[..p]) && off == old(off) + p
        decreases |pending| - p
      {
        var n := KernelWrite(pending[p..]);
        OverlayJoin(old(file), old(off), pending[..p], pending[p..][..n]);
        SliceJoin(pending, p, n);
        p := p + n;
      }
      assert pending[..p] == pending;
    }

    /** __stdio_purge_readbuf: gives read-ahead back to the kernel */
    method PurgeReadbuf()
      requires Valid()
      modifies this`readPtr, this`readEnd, this`off
      ensures Valid() && Abs() == old(Abs()) && readPtr == readEnd == 0 && off + bufUsed == Abs().pos
    {
      if readPtr < readEnd {
        var r := KernelSeek(readPtr - readEnd, Cur);
      }
      readPtr, readEnd := 0, 0;
    }

    method Flush()
      requires Valid()
      modifies this`bufUsed, this`readPtr, this`readEnd, this`file, this`off
      ensures Valid() && Lines() && Abs() == old(Abs()) && bufUsed == 0 && readPtr == readEnd == 0
      ensures file == Abs().data && off == Abs().pos
    {
      FlushWbuf();
      PurgeReadbuf();
    }

    // ----- writing -----

    /** bytes copied to the end of the pending ones */
    method Store(b: seq<byte>)
      requires Valid() && readPtr == readEnd && bufUsed + |b| <= buf.Length
      modifies this`bufUsed, buf
      ensures Valid() && Abs() == PlainWrite(old(Abs()), b) && bufUsed == old(bufUsed) + |b|
      ensures buf[..bufUsed] == old(buf[..bufUsed]) + b
    {
      ghost var was := buf[..bufUsed];
      for i := 0 to |b|
        invariant bufUsed == old(bufUsed) && buf[..bufUsed] == was && buf[bufUsed..bufUsed + i] == b[..i]
      {
        buf[bufUsed + i] := b[i];
      }
      bufUsed := bufUsed + |b|;
      assert buf[..bufUsed] == was + b;
      OverlayJoin(file, off, was, b);
      WriteAtEnd(old(Abs()), b);
    }

    /** file_write: byte by byte, flushing when full and after a newline. What has gone
        out and what is pending is exact. */
    method FileWrite(b: seq<byte>)
      requires Valid() && readPtr == readEnd && buf.Length > 0 && NEWLINE !in buf[..bufUsed]
      modifies this`bufUsed, this`readPtr, this`readEnd, this`file, this`off, buf
      ensures Valid() && Abs() == PlainWrite(old(Abs()), b) && NEWLINE !in buf[..bufUsed]
      ensures Wrote(old(file), old(off), old(buf[..bufUsed]) + b)
      ensures bufUsed == Pending(old(bufUsed), buf.Length, b)
    {
      ghost var p, f0, off0, was := Abs(), file, off, buf[..bufUsed];
      WriteEnds(p, b);
      PartStart(f0, off0, was);
      assert was + b[..0] == was;
      for i := 0 to |b|
        invariant Valid() && readPtr == readEnd && Abs() == WriteFirst(p, b, i) && NEWLINE !in buf[..bufUsed]
        invariant Wrote(f0, off0, was + b[..i]) && bufUsed == Pending(old(bufUsed), buf.Length, b[..i])
      {
        OneMore(was, b, i);
        PendingStep(old(bufUsed), buf.Length, b, i);
        WriteByte(b[i], f0, off0, was + b[..i]);
        WriteMore(p, b, i, 1);
      }
      assert b[..|b|] == b;
    }

    /** one turn of the loop */
    method WriteByte(c: byte, ghost f0: seq<byte>, ghost off0: nat, ghost all: seq<byte>)
      requires Valid() && readPtr == readEnd && buf.Length > 0 && NEWLINE !in buf[..bufUsed] && Wrote(f0, off0, all)
      modifies this`bufUsed, this`readPtr, this`readEnd, this`file, this`off, buf
      ensures Valid() && readPtr == readEnd && Abs() == PlainWrite(old(Abs()), [c]) && NEWLINE !in buf[..bufUsed]
      ensures Wrote(f0, off0, all + [c]) && bufUsed == PendingNext(old(bufUsed), buf.Length, c)
    {
      if bufUsed >= buf.Length { FlushWrote(f0, off0, all); }
      PartStore(file, off, buf[..bufUsed], f0, off0, all, c);
      Store([c]);
      if c == NEWLINE { FlushWrote(f0, off0, all + [c]); }
    }

    /** after a flush nothing is pending */
    method FlushWrote(ghost f0: seq<byte>, ghost off0: nat, ghost all: seq<byte>)
      requires Valid() && readPtr == readEnd && Wrote(f0, off0, all)
      modifies this`bufUsed, this`readPtr, this`readEnd, this`file, this`off
      ensures Valid() && Abs() == old(Abs()) && bufUsed == 0 && readPtr == readEnd && Wrote(f0, off0, all)
    {
      PartFlush(file, off, buf[..bufUsed], f0, off0, all);
      Flush();
      assert buf[..0] == [];
    }

    /** file_write_sync: in chunks, and nothing left pending */
    method FileWriteSync(b: seq<byte>)
      requires Valid() && readPtr == readEnd && buf.Length > 0
      modifies this`bufUsed, this`readPtr, this`readEnd, this`file, this`off, buf
      ensures Valid() && Abs() == PlainWrite(old(Abs()), b) && bufUsed == 0
      ensures file == Abs().data && off == Abs().pos
    {
      var i := 0;
      ghost var p := Abs();
      WriteEnds(p, b);
      while i < |b|
        invariant 0 <= i <= |b| && Valid() && readPtr == readEnd && Abs() == WriteFirst(p, b, i)
        decreases |b| - i, bufUsed
      {
        i := WriteChunk(p, b, i);
      }
      Flush();
    }

    /** fill the buffer, flush it if that made it full */
    method WriteChunk(ghost p: Plain, b: seq<byte>, i: nat) returns (i': nat)
      requires Valid() && readPtr == readEnd && buf.Length > 0 && i < |b| && Abs() == WriteFirst(p, b, i)
      modifies this`bufUsed, this`readPtr, this`readEnd, this`file, this`off, buf
      ensures Valid() && readPtr == readEnd && i <= i' <= |b| && Abs() == WriteFirst(p, b, i')
      ensures i' > i || bufUsed < old(bufUsed)
    {
      i' := StoreSome(p, b, i);
      if bufUsed >= buf.Length { Flush(); }
    }

    /** as many bytes as there is room for */
    method StoreSome(ghost p: Plain, b: seq<byte>, i: nat) returns (i': nat)
      requires Valid() && readPtr == readEnd && i <= |b| && Abs() == WriteFirst(p, b, i)
      modifies this`bufUsed, buf
      ensures i' == i + Min(|b| - i, buf.Length - old(bufUsed)) && bufUsed == old(bufUsed) + (i' - i)
      ensures Valid() && Abs() == WriteFirst(p, b, i')
    {
      var chunk := Min(|b| - i, buf.Length - bufUsed);
      Store(b[i..][..chunk]);
      WriteMore(p, b, i, chunk);
      i' := i + chunk;
    }

    /** the choice at the end of __stdio_file_write */
    method WriteEither(b: seq<byte>, ghost was: seq<byte>)
      requires Valid() && Lines() && readPtr == readEnd && buf.Length > 0 && was == buf[..bufUsed]
      modifies this`bufUsed, this`readPtr, this`readEnd, this`file, this`off, buf
      ensures Valid() && Lines() && Abs() == PlainWrite(old(Abs()), b)
      ensures !sync ==> bufUsed == Pending(old(bufUsed), buf.Length, b)
      ensures Wrote(old(file), old(off), was + b)
    {
      ghost var p := Abs();
      if sync {
        FileWriteSync(b);
        PartAll(p.data, p.pos, b);
        assert was + b == b && buf[..0] == [];
      } else {
        FileWrite(b);
      }
    }

    /** fwrite of nmemb elements of the given size */
    method Write(b: seq<byte>, size: nat, nmemb: nat) returns (r: nat)
      requires Valid() && Lines() && |b| == size * nmemb && buf.Length > 0
      modifies this`bufUsed, this`readPtr, this`readEnd, this`file, this`off, buf
      ensures Valid() && Lines()
      ensures !err && !sync ==> bufUsed == Pending(old(bufUsed), buf.Length, b)
      ensures !err && |b| > 0 ==> Wrote(old(file), old(Abs()).pos - old(bufUsed), old(buf[..bufUsed]) + b)
      ensures r == (if size == 0 || err then 0 else nmemb)
      ensures Abs() == if err then old(Abs()) else PlainWrite(old(Abs()), b)
    {
      WriteNothing(Abs());
      if size == 0 || nmemb == 0 {
        assert b == [];
        return 0;
      }
      var ok := FilePut(b);
      if !ok { return 0; }
      Quotient(size, nmemb);
      return |b| / size;
    }

    /** __stdio_file_write */
    method FilePut(b: seq<byte>) returns (ok: bool)
      requires Valid() && Lines() && buf.Length > 0
      modifies this`bufUsed, this`readPtr, this`readEnd, this`file, this`off, buf
      ensures Valid() && Lines() && ok == !err && Abs() == if err then old(Abs()) else PlainWrite(old(Abs()), b)
      ensures !err && !sync ==> bufUsed == Pending(old(bufUsed), buf.Length, b)
      ensures !err ==> Wrote(old(file), old(Abs()).pos - old(bufUsed), old(buf[..bufUsed]) + b)
    {
      if err { return false; }
      ghost var was := buf[..bufUsed];
      PurgeReadbuf();
      WriteEither(b, was);
      return true;
    }

    // ----- reading -----

    /** hands out read-ahead */
    method Take(n: nat) returns (b: seq<byte>)
      requires Valid() && bufUsed == 0 && n <= readEnd - readPtr
      modifies this`readPtr
      ensures Valid() && b == Next(old(Abs()), n) && |b| == n && Abs() == PlainRead(old(Abs()), n)
    {
      ghost var ahead := buf[readPtr..readEnd];
      b := buf[readPtr..readPtr + n];
      assert b == ahead[..n] && buf[readPtr + n..readEnd] == ahead[n..];
      if ahead != [] { AheadSplit(file, off, ahead, n); }
      readPtr := readPtr + n;
    }

    /** refills the empty read-ahead; nothing comes only at the end of the file */
    method Refill()
      requires Valid() && bufUsed == 0 && readPtr == readEnd && buf.Length > 0
      modifies this`readPtr, this`readEnd, this`off, this`eof, buf
      ensures Valid() && Abs() == old(Abs()) && bufUsed == 0
      ensures if readPtr == readEnd then eof && Available(Abs()) == 0 else eof == old(eof)
    {
      var b := KernelRead(buf.Length);
      if |b| == 0 {
        eof := true;
      } else {
        CopyIn(b);
        readPtr, readEnd := 0, |b|;
        assert buf[0..|b|] == b;
      }
    }

    /** a stream without a buffer reads straight from the kernel */
    method ReadDirect(n: nat) returns (b: seq<byte>)
      requires Valid() && buf.Length == 0 && n > 0
      modifies this`off, this`eof
      ensures Valid() && |b| <= n && b == Next(old(Abs()), |b|) && Abs() == PlainRead(old(Abs()), |b|)
      ensures if b == [] then eof && Available(Abs()) == 0 else eof == old(eof)
    {
      b := KernelRead(n);
      if |b| == 0 { eof := true; }
    }

    /** memcpy to the front of the buffer */
    method CopyIn(b: seq<byte>)
      requires |b| <= buf.Length
      modifies buf
      ensures buf[..|b|] == b
    {
      for i := 0 to |b|
        invariant buf[..i] == b[..i]
      {
        buf[i] := b[i];
      }
    }

    /** fread */
    method Read(size: nat, nmemb: nat) returns (b: seq<byte>, r: nat)
      requires Valid()
      modifies this`bufUsed, this`readPtr, this`readEnd, this`file, this`off, this`eof, buf
      ensures Valid() && (bufUsed == 0 || (bufUsed == old(bufUsed) && buf[..] == old(buf[..])))
      ensures
        var n := if err then 0 else size * nmemb;
        && b == Next(old(Abs()), n) && Abs() == PlainRead(old(Abs()), n)
        && r == (if size == 0 then 0 else |b| / size)
        && (|b| < n ==> eof)
    {
      ReadNothing(Abs());
      if size == 0 || nmemb == 0 || err { return [], 0; }
      b := ReadBytes(size * nmemb);
      r := |b| / size;
    }

    /** loops until everything asked for has come or the file ends */
    method ReadBytes(total: nat) returns (b: seq<byte>)
      requires Valid()
      modifies this`bufUsed, this`readPtr, this`readEnd, this`file, this`off, this`eof, buf
      ensures Valid() && b == Next(old(Abs()), total) && Abs() == PlainRead(old(Abs()), total) && (|b| < total ==> eof)
      ensures bufUsed == 0
    {
      ghost var p0 := Abs();
      FlushWbuf();
      ReadNothing(p0);
      b := [];
      while |b| < total
        invariant Valid() && bufUsed == 0 && |b| <= total && b == Next(p0, |b|) && Abs() == PlainRead(p0, |b|)
        decreases total - |b|
      {
        ghost var done := |b|;
        var c;
        if buf.Length == 0 {
          c := ReadDirect(total - |b|);
        } else {
          if readPtr == readEnd { Refill(); }
          c := Take(Min(readEnd - readPtr, total - |b|));
        }
        if c == [] {
          ReadShort(p0, |b|, total);
          return;
        }
        NextJoin(p0, done, |c|);
        b := b + c;
      }
    }

    /** fgetc */
    method Getc() returns (c: int)
      requires Valid()
      modifies this`bufUsed, this`readPtr, this`readEnd, this`file, this`off, this`eof, buf
      ensures Valid() && (if err then bufUsed == old(bufUsed) && buf[..] == old(buf[..]) else bufUsed == 0)
      ensures c == if err || Available(old(Abs())) == 0 then EOF else old(Abs()).data[old(Abs()).pos]
      ensures Abs() == PlainRead(old(Abs()), if err then 0 else 1)
      ensures !err && c == EOF ==> eof
    {
      if err { return EOF; }
      FlushWbuf();
      if readPtr == readEnd {
        if eof { return EOF; }
        if buf.Length == 0 {
          var d := ReadDirect(1);
          if d == [] { return EOF; } else { return d[0]; }
        }
        Refill();
        if readPtr == readEnd { return EOF; }
      }
      var b := Take(1);
      return b[0];
    }

    // ----- positioning -----

    method Seek(offset: int, w: Whence) returns (r: int)
      requires Valid()
      modifies this`bufUsed, this`readPtr, this`readEnd, this`file, this`off, this`eof
      ensures Valid() && Lines() && bufUsed == 0
      ensures
        var t := SeekTarget(old(Abs()), offset, w);
        if t < 0 then r == -1 && Abs() == old(Abs()) else r == 0 && Abs() == old(Abs()).(pos := t) && !eof
    {
      Flush();
      var t := KernelSeek(offset, w);
      if t < 0 { return -1; }
      eof := false;
      return 0;
    }

    method Tell() returns (r: int)
      requires Valid()
      modifies this`bufUsed, this`readPtr, this`readEnd, this`file, this`off
      ensures Valid() && Lines() && bufUsed == 0 && Abs() == old(Abs()) && r == Abs().pos
    {
      Flush();
      r := KernelSeek(0, Cur);
    }
  }

  lemma WriteNothing(p: Plain)
    ensures PlainWrite(p, []) == p
  {
  }

  lemma WriteJoin(p: Plain, a: seq<byte>, b: seq<byte>)
    ensures PlainWrite(PlainWrite(p, a), b) == PlainWrite(p, a + b)
  {
    OverlayJoin(p.data, p.pos, a, b);
  }

  /** the first i bytes */
  function WriteFirst(p: Plain, b: seq<byte>, i: nat): Plain
    requires i <= |b|
  {
    PlainWrite(p, b[..i])
  }

  lemma WriteEnds(p: Plain, b: seq<byte>)
    ensures WriteFirst(p, b, 0) == p && WriteFirst(p, b, |b|) == PlainWrite(p, b)
  {
    WriteNothing(p);
    assert b[..|b|] == b;
  }

  lemma WriteMore(p: Plain, b: seq<byte>, i: nat, n: nat)
    requires i + n <= |b|
    ensures PlainWrite(WriteFirst(p, b, i), b[i..][..n]) == WriteFirst(p, b, i + n)
  {
    WriteJoin(p, b[..i], b[i..][..n]);
    SliceJoin(b, i, n);
  }

  /** writing at the end leaves the position at the end */
  lemma WriteAtEnd(p: Plain, b: seq<byte>)
    ensures Available(p) == 0 ==> Available(PlainWrite(p, b)) == 0
  {
    OverlayByte(p.data, p.pos, b, 0);
  }

  lemma ReadNothing(p: Plain)
    ensures Next(p, 0) == [] && PlainRead(p, 0) == p
  {
  }

  /** when nothing is left, asking for more gives no more */
  lemma ReadShort(p: Plain, k: nat, n: nat)
    requires k <= n && |Next(p, k)| == k && Available(PlainRead(p, k)) == 0
    ensures Next(p, n) == Next(p, k) && PlainRead(p, n) == PlainRead(p, k)
  {
  }

  lemma Quotient(a: nat, b: nat)
    requires a > 0
    ensures (a * b) / a == b
  {
    var q, r := (a * b) / a, (a * b) % a;
    assert a * b == a * q + r;
    Gap(a, b - q, r);
    Gap(a, q - b, 0 - r);
  }

  lemma Gap(a: nat, k: int, r: int)
    requires a * k == r < a
    ensures k <= 0
  {
    assert k >= 1 ==> a * (k - 1) >= 0;
  }

  // ----- any interleaving -----

  datatype Op =
    | WriteOp(b: seq<byte>, size: nat, nmemb: nat)
    | ReadOp(size: nat, nmemb: nat)
    | GetcOp
    | FlushOp
    | SeekOp(offset: int, w: Whence)
    | TellOp

  /** a returned number and returned bytes */
  datatype Result = Result(r: int, b: seq<byte>)

  predicate OpOk(op: Op) { op.WriteOp? ==> |op.b| == op.size * op.nmemb }

  /** one operation on an unbuffered file with one offset */
  function PlainStep(p: Plain, op: Op): (Plain, Result) {
    match op
    case WriteOp(b, size, nmemb) => (PlainWrite(p, b), Result(if size == 0 then 0 else nmemb, []))
    case ReadOp(size, nmemb) =>
      var b := Next(p, size * nmemb);
      (PlainRead(p, size * nmemb), Result(if size == 0 then 0 else |b| / size, b))
    case GetcOp => (PlainRead(p, 1), Result(if Available(p) == 0 then EOF else p.data[p.pos], []))
    case FlushOp => (p, Result(0, []))
    case SeekOp(offset, w) =>
      var t := SeekTarget(p, offset, w);
      if t < 0 then (p, Result(-1, [])) else (p.(pos := t), Result(0, []))
    case TellOp => (p, Result(p.pos, []))
  }

  function PlainRun(p: Plain, ops: seq<Op>): (Plain, seq<Result>)
    decreases |ops|
  {
    if ops == [] then (p, [])
    else
      var (p1, rs) := PlainRun(p, ops[..|ops| - 1]);
      var (p2, r) := PlainStep(p1, ops[|ops| - 1]);
      (p2, rs + [r])
  }

  method Apply(s: Stream, op: Op) returns (r: Result)
    requires s.Valid() && s.Lines() && s.buf.Length > 0 && !s.err && OpOk(op)
    modifies s`bufUsed, s`readPtr, s`readEnd, s`file, s`off, s`eof, s.buf
    ensures s.Valid() && s.Lines() && (s.Abs(), r) == PlainStep(old(s.Abs()), op)
    ensures op.WriteOp? && op.b != [] ==>
      s.Wrote(old(s.file), old(s.Abs()).pos - old(s.bufUsed), old(s.buf[..s.bufUsed]) + op.b)
    ensures op.WriteOp? && !s.sync ==> s.bufUsed == Pending(old(s.bufUsed), s.buf.Length, op.b)
    ensures !op.WriteOp? ==> s.bufUsed == 0 || (op.ReadOp? && s.bufUsed == old(s.bufUsed))
  {
    match op
    case WriteOp(b, size, nmemb) =>
      var n := s.Write(b, size, nmemb);
      r := Result(n, []);
    case ReadOp(size, nmemb) =>
      var b, n := s.Read(size, nmemb);
      r := Result(n, b);
    case GetcOp =>
      var c := s.Getc();
      r := Result(c, []);
    case FlushOp =>
      s.Flush();
      r := Result(0, []);
    case SeekOp(offset, w) =>
      var n := s.Seek(offset, w);
      r := Result(n, []);
    case TellOp =>
      var n := s.Tell();
      r := Result(n, []);
  }

  /** Any interleaving of operations returns what unbuffered I/O returns, leaves
      the position where unbuffered I/O leaves it and, once flushed, the same file. */
  method Run(f: seq<byte>, at: nat, size: nat, unbuffered: bool, ops: seq<Op>)
    returns (rs: seq<Result>, file: seq<byte>, pos: nat)
    requires size > 0 && forall i | 0 <= i < |ops| :: OpOk(ops[i])
    ensures ((Plain(file, pos), rs)) == PlainRun(Plain(f, at), ops)
  {
    var s := new Stream(f, at, size, unbuffered);
    rs := [];
    for i := 0 to |ops|
      invariant fresh(s) && fresh(s.buf) && s.Valid() && s.Lines() && s.buf.Length == size && !s.err
      invariant (s.Abs(), rs) == PlainRun(Plain(f, at), ops[..i])
    {
      var r := Apply(s, ops[i]);
      assert ops[..i + 1][..i] == ops[..i] && ops[..i + 1][i] == ops[i];
      rs := rs + [r];
    }
    assert ops[..|ops|] == ops;
    s.Flush();
    file, pos := s.file, s.off;
  }
}
