/**
 * The open file that the decoder reads through: its contents never change,
 * only the current position does. `Tell`, `Seek`, `SeekEnd` and `Read` behave
 * as Python's binary file methods do; `ReadU32` and `ReadU64` stand for the
 * helpers `read_u32` and `read_u64` of mp4/util.py, which is not part of this
 * model: they read 4 or 8 bytes and decode them big-endian, and they fail
 * (return None) when the read comes back short.
 *
 * CPython converts the length given to `f.read(n)` to a C `ssize_t`, so a
 * length above MAX_READ raises OverflowError before anything is read; `Read`
 * returns None then.
 */
module Cursors {
  import opened Results
  import opened Bytes

  /** The largest length `f.read` accepts: PY_SSIZE_T_MAX on a 64-bit build. */
  const MAX_READ: nat := 0x7FFF_FFFF_FFFF_FFFF

  class Cursor {
    const data: seq<byte>
    var pos: nat

    constructor (contents: seq<byte>)
      ensures data == contents && pos == 0
    {
      data := contents;
      pos := 0;
    }

    /** `f.tell()` */
    method Tell() returns (p: nat)
      ensures p == pos
    {
      p := pos;
    }

    /** `f.seek(p)`: any non-negative position, even past the end of the file. */
    method Seek(p: nat)
      modifies this
      ensures pos == p
    {
      pos := p;
    }

    /** `f.seek(0, os.SEEK_END)` */
    method SeekEnd()
      modifies this
      ensures pos == |data|
    {
      pos := |data|;
    }

    /**
     * `f.read(n)`: at most `n` bytes, advancing past what was read; None for
     * a length too large to convert, leaving the position alone.
     */
    method Read(n: nat) returns (r: Option<seq<byte>>)
      modifies this
      ensures r.Some? <==> n <= MAX_READ
      ensures r.Some? ==> r.value == ReadAt(data, old(pos), n) && pos == old(pos) + |r.value|
      ensures r.None? ==> pos == old(pos)
    {
      if n > MAX_READ {
        return None;
      }
      var bytes := ReadAt(data, pos, n);
      pos := pos + |bytes|;
      r := Some(bytes);
    }

    /** Reads `n` bytes and decodes them big-endian; None when fewer were left. */
    method ReadUint(n: nat) returns (r: Option<nat>)
      requires 0 < n <= 8
      modifies this
      ensures r == (if old(pos) + n <= |data| then Some(BeUint(data[old(pos)..old(pos) + n])) else None)
      ensures pos == old(pos) + |ReadAt(data, old(pos), n)|
      ensures r.Some? ==> r.value < Pow256(n) && pos == old(pos) + n
      ensures r.None? ==> pos == Max(old(pos), |data|)
    {
      var read := Read(n);
      var bytes := read.value;
      if |bytes| < n {
        return None;
      }
      assert old(pos) + (n - 1) < |data|;
      assert bytes == data[old(pos)..old(pos) + n];
      r := Some(BeUint(bytes));
    }

    /** `read_u32(f)` */
    method ReadU32() returns (r: Option<nat>)
      modifies this
      ensures r == (if old(pos) + 4 <= |data| then Some(BeUint(data[old(pos)..old(pos) + 4])) else None)
      ensures r.Some? ==> pos == old(pos) + 4
      ensures r.None? ==> pos == Max(old(pos), |data|)
    {
      r := ReadUint(4);
    }

    /** `read_u64(f)` */
    method ReadU64() returns (r: Option<nat>)
      modifies this
      ensures r == (if old(pos) + 8 <= |data| then Some(BeUint(data[old(pos)..old(pos) + 8])) else None)
      ensures r.Some? ==> pos == old(pos) + 8
      ensures r.None? ==> pos == Max(old(pos), |data|)
    {
      r := ReadUint(8);
    }
  }
}
