/** The sliding window over the configuration file (`InputBuffer` in `src/lexer.c`). */
module InputBuffers {
  import opened Bytes
  import opened Windows

  /** An open file: its bytes, how many have been read, and whether a read hit the end. */
  class InFile {
    const data: Text
    var off: nat
    var atEof: bool

    constructor (data: Text)
      ensures this.data == data && off == 0 && !atEof
    {
      this.data, off, atEof := data, 0, false;
    }

    /** `fread`: as many bytes as there are, up to `k`; a short read raises the end-of-file flag. */
    method Read(dst: array<Byte>, at: nat, k: nat) returns (n: nat)
      requires off <= |data| && at + k <= dst.Length
      modifies this`off, this`atEof, dst
      ensures n == if k <= |data| - old(off) then k else |data| - old(off)
      ensures off == old(off) + n
      ensures atEof == (old(atEof) || n < k)
      ensures forall j :: at <= j < at + n ==> dst[j] == data[old(off) + j - at]
      ensures forall i :: 0 <= i < dst.Length && !(at <= i < at + n) ==> dst[i] == old(dst[i])
    {
      n := if k <= |data| - off then k else |data| - off;
      forall i | 0 <= i < n {
        dst[at + i] := data[off + i];
      }
      off := off + n;
      atEof := atEof || n < k;
    }
  }

  class InputBuffer {
    var pos: nat
    var len: nat
    var eof: bool
    const f: InFile
    const buf: array<Byte>
    // Where the window ends; beyond the end of the file once that is known.
    ghost var end: nat

    ghost predicate Valid()
      reads this, f, buf
    {
      && buf.Length >= 3
      && len <= buf.Length && len <= f.off <= |f.data|
      && (forall k :: 0 <= k < len ==> buf[k] == f.data[f.off - len + k])
      && (eof ==> f.off == |f.data|)
      && (f.atEof ==> eof)
      && (pos <= len || eof)
      && (!eof ==> len == buf.Length || len == f.off == 0)
      && (eof <==> end > |f.data|)
      && (!eof ==> end == f.off)
    }

    /** The position in the file of the next byte to read; past the end it keeps counting. */
    ghost function P(): nat
      reads this, f
    {
      if len <= f.off then f.off - len + pos else 0
    }

    /** The end of the window once the next byte has been looked at. */
    ghost function Edge(): nat
      reads this, f
    {
      Look(buf.Length, end, P(), 0)
    }

    constructor (f: InFile, size: nat)
      requires f.off == 0 && !f.atEof && size >= 3
      ensures Valid() && P() == 0 && this.f == f && fresh(buf) && buf.Length == size
      ensures Edge() == size
    {
      pos, len, eof, end := 0, 0, false, 0;
      this.f := f;
      buf := new Byte[size];
    }

    /**
     The byte `i` places ahead, refilling the window if it is not in there. At `i` = 0,
     and wherever the file goes on, this is the byte of the file. Past the end it is
     end of file too, unless the window was full up to its last byte: then the refill
     reads nothing and a stale byte of the window is returned.
     */
    method PeekN(i: nat) returns (c: Byte)
      requires Valid() && i < buf.Length
      requires pos + i <= len || eof
      modifies this, f, buf
      ensures Valid() && P() == old(P())
      ensures end == Look(buf.Length, old(end), P(), i)
      ensures c == Sees(f.data, buf.Length, old(end), P(), i)
      ensures pos + i < len || eof
    {
      if pos + i < len {
        return buf[pos + i];
      }
      if eof || (i > 0 && i >= len) {
        end := Look(buf.Length, end, P(), i);
        return EOF_CHAR;
      }
      c := Refill(i);
    }

    /** The last `i` bytes of the window, moved to its front (`memmove`). */
    method Slide(i: nat)
      requires i <= len <= buf.Length
      modifies buf
      ensures forall k :: 0 <= k < i ==> buf[k] == old(buf[len - i + k])
      ensures forall k :: i <= k < buf.Length ==> buf[k] == old(buf[k])
    {
      forall k | 0 <= k < i {
        buf[k] := buf[len - i + k];
      }
    }

    /** Slides the last `i` bytes to the front and reads as many more as fit. */
    method Refill(i: nat) returns (c: Byte)
      requires Valid() && !eof && pos + i == len && (i == 0 || i < len)
      modifies this, f, buf
      ensures Valid() && P() == old(P())
      ensures end == Look(buf.Length, old(end), P(), i)
      ensures c == Sees(f.data, buf.Length, old(end), P(), i)
      ensures pos + i < len || eof
    {
      ghost var start := P();
      if i > 0 {
        Slide(i);
      }
      var n := f.Read(buf, i, buf.Length - i);
      len := i + n;
      pos := 0;
      end := start + buf.Length;
      if len != buf.Length {
        if f.atEof {
          eof := true;
        }
        if len == 0 {
          return EOF_CHAR;
        }
      }
      c := buf[i];
    }

    method Advance()
      requires Valid() && (pos < len || eof)
      modifies this`pos
      ensures Valid() && P() == old(P()) + 1 && end == old(end)
    {
      pos := pos + 1;
    }
  }
}
