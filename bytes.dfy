/**
 * Bytes, big-endian integers and the two Python byte-sequence operations the
 * box decoder relies on: `f.read(n)` (which returns fewer bytes at end of
 * file instead of failing) and slicing `s[a:b]` (which clamps its bounds).
 */
module Bytes {

  type byte = x: int | 0 <= x < 256

  function Min(a: int, b: int): (r: int) { if a <= b then a else b }
  function Max(a: int, b: int): (r: int) { if a <= b then b else a }

  /** 256 to the power n: one more than the largest n-byte unsigned value. */
  function Pow256(n: nat): (r: nat)
    ensures r >= 1
  {
    if n == 0 then 1 else 256 * Pow256(n - 1)
  }

  /** The unsigned integer whose big-endian encoding is `s`. */
  function BeUint(s: seq<byte>): (r: nat)
    ensures r < Pow256(|s|)
  {
    if |s| == 0 then 0 else BeUint(s[..|s| - 1]) * 256 + s[|s| - 1]
  }

  /** The first byte of a big-endian encoding carries the highest weight. */
  lemma {:induction false} BeUintFirst(s: seq<byte>)
    requires |s| >= 1
    ensures BeUint(s) == s[0] * Pow256(|s| - 1) + BeUint(s[1..])
  {
    var n := |s|;
    if n == 1 {
      assert s[..0] == [] && s[1..] == [];
    } else {
      var init, tail := s[..n - 1], s[1..];
      BeUintFirst(init);
      assert init[1..] == tail[..n - 2];
      assert tail[n - 2] == s[n - 1];
      var hi, lo := s[0], BeUint(tail[..n - 2]);
      var p := Pow256(n - 2);
      assert BeUint(s) == (hi * p + lo) * 256 + s[n - 1];
      Shift(hi, p, lo);
      assert BeUint(tail) == lo * 256 + s[n - 1];
    }
  }

  lemma Shift(hi: int, p: int, lo: int)
    ensures (hi * p + lo) * 256 == hi * (256 * p) + lo * 256
  {
  }

  /** Zero bytes followed by `x` encode `x`. */
  lemma {:induction false} BeUintLowByte(k: nat, x: byte)
    ensures BeUint(seq(k, _ => 0) + [x]) == x
  {
    var s := seq(k, _ => 0) + [x];
    assert s[..|s| - 1] == seq(k, _ => 0);
    BeUintZeros(k);
  }

  lemma {:induction false} BeUintZeros(k: nat)
    ensures BeUint(seq(k, _ => 0)) == 0
  {
    if k > 0 {
      assert seq(k, _ => 0)[..k - 1] == seq(k - 1, _ => 0);
      BeUintZeros(k - 1);
    }
  }

  /**
   * What Python's `f.read(n)` returns when the file holds `data` and the
   * position is `pos`: the next `n` bytes, or fewer when the end of the file
   * comes first (none at all from a position at or past the end).
   */
  function ReadAt(data: seq<byte>, pos: nat, n: nat): (r: seq<byte>)
    ensures |r| <= n
    ensures pos >= |data| ==> r == []
    ensures forall i :: 0 <= i < |r| ==> pos + i < |data| && r[i] == data[pos + i]
    ensures |r| < n ==> pos + |r| >= |data|
  {
    if pos >= |data| then [] else data[pos..Min(pos + n, |data|)]
  }

  /** `buffer` holds the bytes of the file `data` that start at offset `origin`. */
  predicate BytesOfFileAt(data: seq<byte>, buffer: seq<byte>, origin: nat)
  {
    forall i :: 0 <= i < |buffer| ==> origin + i < |data| && buffer[i] == data[origin + i]
  }

  /** Python's index normalisation for a slice bound of a sequence of length `len`. */
  function SliceBound(i: int, len: nat): (r: nat)
    ensures r <= len
    ensures 0 <= i ==> r == Min(i, len)
  {
    if i < 0 then Max(0, i + len) else Min(i, len)
  }

  /** Python's `s[a:b]` with a step of 1, negative bounds counting from the end. */
  function PySlice(s: seq<byte>, a: int, b: int): (r: seq<byte>)
    ensures 0 <= a && 0 <= b ==> |r| == Max(0, Min(b, |s|) - a)
    ensures 0 <= a ==> forall i :: 0 <= i < |r| ==> a + i < |s| && r[i] == s[a + i]
  {
    var lo := SliceBound(a, |s|);
    var hi := SliceBound(b, |s|);
    if lo >= hi then [] else s[lo..hi]
  }
}
