/**
 * The generic box envelope of ISO/IEC 14496-12 (section 4.2, "Object
 * Structure") as mp4/core.py decodes it: the box header (32-bit size, 4-byte
 * type, optional 64-bit largesize, optional 16-byte extended type for "uuid"
 * boxes), the base box that records where it starts and, for a top-level box,
 * buffers its own bytes, and the FullBox version/flags prefix.
 *
 * A header and a box never change once built, so both are datatypes; what
 * changes while they are built is the position of the file, the `Cursor`.
 * Each constructor of the source is a method that moves the cursor step by
 * step and is proved to produce what a pure function of the file contents
 * and the starting position specifies: `ReadHeader` / `DecodeHeader`,
 * `NewBox` / `BoxAt`, `NewFullBox` / `FullBoxAt`.
 */
module Core {
  import opened Results
  import opened Bytes
  import opened Cursors
  import opened Hex

  /** Type codes, as the four ASCII bytes the file holds. */
  const UUID: seq<byte> := [0x75, 0x75, 0x69, 0x64]
  const MDAT: seq<byte> := [0x6d, 0x64, 0x61, 0x74]
  /** The type the file object itself reports, which marks a top-level box's parent. */
  const FILE: seq<byte> := [0x66, 0x69, 0x6c, 0x65]

  /** Smallest declared size accepted: a bare size and type. */
  const MIN_BOX_SIZE: nat := 8
  /** Most bytes buffered for a top-level "mdat" box. */
  const MDAT_BUFFER_CAP: nat := 1000001
  /** 2^24: the weight of the version byte in a FullBox's leading u32. */
  const VERSION_WEIGHT: nat := 0x100_0000

  // ---------------------------------------------------------------- Header

  /**
   * A decoded box header. `size32` is the raw 32-bit size field; `largesize`
   * is present exactly when `size32` is 1 and `uuid` exactly when the type is
   * "uuid". `boxType` holds the bytes of the type read, fewer than 4 only at
   * end of file. `headerSize` is how far the header reads moved the file
   * position, `trunc` how many declared bytes lie past the end of the file.
   */
  datatype Header = Header(
    size32: nat,
    boxType: seq<byte>,
    largesize: Option<nat>,
    uuid: Option<seq<byte>>,
    headerSize: nat,
    trunc: nat)
  {
    predicate WellFormed() {
      && (size32 == 1 <==> largesize.Some?)
      && (boxType == UUID <==> uuid.Some?)
    }

    /** `Header.size`: the declared size of the box. */
    function Size(): (n: nat)
      requires WellFormed()
    {
      if size32 == 1 then largesize.value else size32
    }
  }

  datatype DecodeError =
    | ShortRead                  // a fixed-width read ran past the end of the file
    | BoxTooSmall(header: Header) // the declared size is below MIN_BOX_SIZE
    | ReadOverflow               // `f.read` was asked for more than MAX_READ bytes

  /** The raw 32-bit size field of the box starting at `start`. */
  function Size32At(data: seq<byte>, start: nat): (n: nat)
    requires start + 4 <= |data|
  {
    BeUint(data[start..start + 4])
  }

  /** The type read: the (up to) 4 bytes after the size field. */
  function TypeAt(data: seq<byte>, start: nat): (t: seq<byte>)
    ensures |t| <= 4 && (start + 8 <= |data| ==> t == data[start + 4..start + 8])
  {
    ReadAt(data, start + 4, 4)
  }

  /** The size-field reads of the box at `start` stay within the file. */
  predicate SizeFieldsPresent(data: seq<byte>, start: nat)
  {
    start + 4 <= |data| && (Size32At(data, start) == 1 ==> start + 16 <= |data|)
  }

  /**
   * The header fields `Header(fp)` assigns, before its size check, once the
   * size field (and the largesize when that field is 1) could be read.
   */
  function HeaderAt(data: seq<byte>, start: nat): (h: Header)
    requires SizeFieldsPresent(data, start)
    ensures h.WellFormed()
  {
    var maxLenOfBox: int := |data| - start;
    var size32 := Size32At(data, start);
    var boxType := TypeAt(data, start);
    var largesize := if size32 == 1 then Some(BeUint(data[start + 8..start + 16])) else None;
    var afterSize := start + 4 + |boxType| + (if size32 == 1 then 8 else 0);
    var declared := if size32 == 1 then largesize.value else size32;
    var trunc := if maxLenOfBox < declared then declared - maxLenOfBox else 0;
    var uuid := if boxType == UUID then Some(ReadAt(data, afterSize, 16)) else None;
    var afterUuid := if boxType == UUID then afterSize + |uuid.value| else afterSize;
    Header(size32, boxType, largesize, uuid, afterUuid - start, trunc)
  }

  /** The fields of `HeaderAt`, one at a time, for the step-by-step reader. */
  lemma HeaderAtFields(data: seq<byte>, start: nat, size32: nat, boxType: seq<byte>,
                       largesize: Option<nat>, trunc: nat, uuid: Option<seq<byte>>, end: nat)
    requires SizeFieldsPresent(data, start)
    requires size32 == Size32At(data, start) && boxType == TypeAt(data, start)
    requires largesize == if size32 == 1 then Some(BeUint(data[start + 8..start + 16])) else None
    requires trunc == Max(0, (if size32 == 1 then largesize.value else size32) - (|data| - start))
    requires uuid == if boxType == UUID then Some(ReadAt(data, start + 4 + |boxType| + (if size32 == 1 then 8 else 0), 16)) else None
    requires end == start + 4 + |boxType| + (if size32 == 1 then 8 else 0) + (if uuid.Some? then |uuid.value| else 0)
    ensures Header(size32, boxType, largesize, uuid, end - start, trunc) == HeaderAt(data, start)
  {
  }

  /**
   * The header mp4/core.py decodes from the box starting at `start`: the
   * value `Header(fp)` builds, or the error it raises.
   */
  function DecodeHeader(data: seq<byte>, start: nat): (r: Result<Header, DecodeError>)
    ensures r.Success? ==> r.value.WellFormed() && r.value.Size() >= MIN_BOX_SIZE
    ensures r.Failure? && r.error.BoxTooSmall? ==>
      && SizeFieldsPresent(data, start)
      && r.error.header == HeaderAt(data, start)
      && r.error.header.Size() < MIN_BOX_SIZE
    ensures (r.Failure? && r.error.ShortRead?) <==> !SizeFieldsPresent(data, start)
  {
    if !SizeFieldsPresent(data, start) then Failure(ShortRead)
    else
      var h := HeaderAt(data, start);
      if h.Size() < MIN_BOX_SIZE then Failure(BoxTooSmall(h)) else Success(h)
  }

  /**
   * The size fields `Header.__init__` reads: the 32-bit size, the type, and
   * the 64-bit largesize when the size field is 1. `ok` is false when the
   * file ends before a size field, which leaves the position at the end of
   * the file.
   */
  method ReadSizeFields(f: Cursor) returns (ok: bool, size32: nat, boxType: seq<byte>, largesize: Option<nat>)
    modifies f
    ensures ok <==> SizeFieldsPresent(f.data, old(f.pos))
    ensures ok ==>
      && size32 == Size32At(f.data, old(f.pos))
      && boxType == TypeAt(f.data, old(f.pos))
      && largesize == (if size32 == 1 then Some(BeUint(f.data[old(f.pos) + 8..old(f.pos) + 16])) else None)
      && f.pos == old(f.pos) + 4 + |boxType| + (if size32 == 1 then 8 else 0)
    ensures !ok ==> f.pos == Max(old(f.pos), |f.data|)
  {
    ghost var start := f.pos;
    var read32 := f.ReadU32();
    if read32.None? {
      return false, 0, [], None;
    }
    size32 := read32.value;
    var typeRead := f.Read(4);
    boxType := typeRead.value;
    assert boxType == TypeAt(f.data, start);
    largesize := None;
    if size32 == 1 {
      largesize := f.ReadU64();
      if largesize.None? {
        return false, size32, boxType, None;
      }
      assert |boxType| == 4;
    }
    ok := true;
  }

  /**
   * `Header.__init__`: decodes the header of the box at the current position
   * and leaves the position at the end of the header.
   */
  method ReadHeader(f: Cursor) returns (r: Result<Header, DecodeError>)
    modifies f
    ensures r == DecodeHeader(f.data, old(f.pos))
    ensures r.Success? ==> f.pos == old(f.pos) + r.value.headerSize
    ensures r.Failure? && r.error.BoxTooSmall? ==> f.pos == old(f.pos) + r.error.header.headerSize
    ensures r.Failure? && r.error.ShortRead? ==> f.pos == Max(old(f.pos), |f.data|)
  {
    var trunc: nat := 0;
    var startOfBox := f.Tell();
    f.SeekEnd();
    var endOfFile := f.Tell();
    var maxLenOfBox: int := endOfFile as int - startOfBox as int;
    f.Seek(startOfBox);
    var ok, size32, boxType, largesize := ReadSizeFields(f);
    if !ok {
      assert DecodeHeader(f.data, startOfBox) == Failure(ShortRead);
      return Failure(ShortRead);
    }
    if size32 == 1 {
      if maxLenOfBox < largesize.value {
        trunc := largesize.value - maxLenOfBox;
      }
    } else {
      if maxLenOfBox < size32 {
        trunc := size32 - maxLenOfBox;
      }
    }
    var uuid: Option<seq<byte>> := None;
    if boxType == UUID {
      var extended := f.Read(16);
      uuid := extended;
    }
    var end := f.Tell();
    HeaderAtFields(f.data, startOfBox, size32, boxType, largesize, trunc, uuid, end);
    var h := Header(size32, boxType, largesize, uuid, end - startOfBox, trunc);
    if h.Size() < MIN_BOX_SIZE {
      assert DecodeHeader(f.data, startOfBox) == Failure(BoxTooSmall(h));
      return Failure(BoxTooSmall(h));
    }
    DecodesAs(f.data, startOfBox, h);
    return Success(h);
  }

  /**
   * The declared size is the 32-bit field, except that a field of 1 defers to
   * the 64-bit largesize that follows the type.
   */
  lemma DeclaredSize(data: seq<byte>, start: nat)
    requires DecodeHeader(data, start).Success?
    ensures var h := DecodeHeader(data, start).value;
      && start + 4 <= |data|
      && h.size32 == Size32At(data, start)
      && h.boxType == ReadAt(data, start + 4, 4)
      && (start + 8 <= |data| ==> h.boxType == data[start + 4..start + 8])
      && (h.size32 == 1 ==> start + 16 <= |data| && h.Size() == BeUint(data[start + 8..start + 16]))
      && (h.size32 != 1 ==> h.Size() == h.size32)
  {
  }

  /**
   * The truncation is how far the declared size reaches past the end of the
   * file, counted from the start of the box, and zero when it does not.
   */
  lemma Truncation(data: seq<byte>, start: nat)
    requires DecodeHeader(data, start).Success?
    ensures var h := DecodeHeader(data, start).value;
      && h.trunc == Max(0, h.Size() - (|data| - start))
      && (h.trunc > 0 <==> h.Size() > |data| - start)
      && h.Size() - h.trunc <= |data| - start
  {
  }

  /** The header length the standard lays out for a size field and a type. */
  function FullHeaderSize(size32: nat, boxType: seq<byte>): (n: nat)
    ensures n in {8, 16, 24, 32}
  {
    8 + (if size32 == 1 then 8 else 0) + (if boxType == UUID then 16 else 0)
  }

  /**
   * The header occupies the standard's layout, or as much of it as the file
   * holds from the box's start: exactly that layout whenever the file holds
   * it, and less only when the file ends inside the header.
   */
  lemma HeaderLength(data: seq<byte>, start: nat)
    requires DecodeHeader(data, start).Success?
    ensures var h := DecodeHeader(data, start).value;
      var full := FullHeaderSize(h.size32, h.boxType);
      && h.headerSize == Min(full, |data| - start)
      && h.headerSize <= full
      && (start + full <= |data| ==> h.headerSize == full)
      && (h.headerSize < full ==> start + h.headerSize == |data|)
  {
  }

  /**
   * The extended type of a "uuid" box is read right after the largesize when
   * there is one, and right after the type otherwise.
   */
  lemma UuidPlacement(data: seq<byte>, start: nat)
    requires DecodeHeader(data, start).Success?
    ensures var h := DecodeHeader(data, start).value;
      && (h.uuid.Some? <==> h.boxType == UUID)
      && (h.boxType == UUID ==>
            h.uuid.value == ReadAt(data, start + (if h.size32 == 1 then 16 else 8), 16))
      && (h.boxType == UUID && start + FullHeaderSize(h.size32, h.boxType) <= |data| ==>
            h.uuid.value == data[start + h.headerSize - 16..start + h.headerSize])
  {
  }

  /**
   * A declared size below 8 is rejected and any other decodes: a 32-bit
   * field of 0 (no "to the end of the file" reading) or 2 to 7 is rejected,
   * and so is 1 with a largesize below 8; a field of 1 whose largesize the
   * file does not hold is a short read.
   */
  lemma SmallSizeRejected(data: seq<byte>, start: nat)
    requires start + 4 <= |data|
    ensures var s := Size32At(data, start);
      var r := DecodeHeader(data, start);
      && (s != 1 ==> (r.Success? <==> s >= MIN_BOX_SIZE) && (r.Failure? ==> r.error.BoxTooSmall?))
      && (s == 1 && start + 16 > |data| ==> r == Failure(ShortRead))
      && (s == 1 && start + 16 <= |data| ==>
            && (r.Success? <==> BeUint(data[start + 8..start + 16]) >= MIN_BOX_SIZE)
            && (r.Failure? ==> r.error.BoxTooSmall?))
  {
  }

  /**
   * The only lower bound on the declared size is 8, not the header length:
   * a "uuid" box that declares 8 bytes decodes, with a 24-byte header.
   */
  lemma UuidHeaderLongerThanSize()
    ensures var data: seq<byte> := [0, 0, 0, 8] + UUID + seq(16, _ => 0);
      var r := DecodeHeader(data, 0);
      r.Success? && r.value.Size() == 8 && r.value.headerSize == 24
  {
    var data: seq<byte> := [0, 0, 0, 8] + UUID + seq(16, _ => 0);
    assert data[0..4] == [0, 0, 0, 8];
    assert BeUint([0, 0, 0, 8]) == 8 by {
      assert [0, 0, 0, 8][..3] == [0, 0, 0];
      assert [0, 0, 0][..2] == [0, 0];
      assert [0, 0][..1] == [0];
      assert [0][..0] == [];
    }
    assert ReadAt(data, 4, 4) == UUID;
  }

  /**
   * A box that lies inside the file and is at least as long as the
   * standard's header layout decodes, from its own `size` bytes sliced out
   * of the file, to the very header it has in place (which is then not
   * truncated).
   */
  lemma SliceRoundTrip(data: seq<byte>, start: nat)
    requires DecodeHeader(data, start).Success?
    requires var h := DecodeHeader(data, start).value;
      start + h.Size() <= |data| && FullHeaderSize(h.size32, h.boxType) <= h.Size()
    ensures var h := DecodeHeader(data, start).value;
      h.trunc == 0 && DecodeHeader(data[start..start + h.Size()], 0) == Success(h)
  {
    var h := DecodeHeader(data, start).value;
    HeaderOfSlice(data, start, h);
    DecodesAs(data[start..start + h.Size()], 0, h);
  }

  /** `HeaderAt` sees the same header in the box's own bytes as in the file. */
  lemma HeaderOfSlice(data: seq<byte>, start: nat, h: Header)
    requires SizeFieldsPresent(data, start) && HeaderAt(data, start) == h
    requires h.WellFormed() && MIN_BOX_SIZE <= FullHeaderSize(h.size32, h.boxType) <= h.Size()
    requires start + h.Size() <= |data|
    ensures h.trunc == 0
    ensures SizeFieldsPresent(data[start..start + h.Size()], 0)
    ensures HeaderAt(data[start..start + h.Size()], 0) == h
  {
    var end := start + h.Size();
    var box := data[start..end];
    SubSlice(data, start, end, 0, 4);
    SubSlice(data, start, end, 4, 8);
    assert Size32At(box, 0) == h.size32 && TypeAt(box, 0) == h.boxType;
    if h.size32 == 1 {
      SubSlice(data, start, end, 8, 16);
      assert h.largesize == Some(BeUint(box[8..16]));
    }
    var afterSize := 8 + (if h.size32 == 1 then 8 else 0);
    if h.boxType == UUID {
      SubSlice(data, start, end, afterSize, afterSize + 16);
      assert h.uuid == Some(ReadAt(box, afterSize, 16));
    }
    HeaderAtFields(box, 0, h.size32, h.boxType, h.largesize, h.trunc, h.uuid, h.headerSize);
  }

  /** A header that `HeaderAt` builds and that declares at least 8 bytes is decoded. */
  lemma DecodesAs(data: seq<byte>, start: nat, h: Header)
    requires SizeFieldsPresent(data, start) && HeaderAt(data, start) == h
    requires h.WellFormed() && h.Size() >= MIN_BOX_SIZE
    ensures DecodeHeader(data, start) == Success(h)
  {
  }

  /** A slice of a slice is a slice of the whole. */
  lemma SubSlice(data: seq<byte>, lo: nat, hi: nat, i: nat, j: nat)
    requires lo <= hi <= |data| && i <= j <= hi - lo
    ensures data[lo..hi][i..j] == data[lo + i..lo + j]
  {
    assert forall k :: 0 <= k < j - i ==> data[lo..hi][i..j][k] == data[lo + i + k];
  }

  /**
   * Without the header-length condition the round trip fails: a 16-byte
   * file holding one "free" box with a size field of 1 and a largesize of 8
   * decodes in place, but its 8 declared bytes end inside its own header.
   */
  lemma LargesizeSliceDoesNotRoundTrip()
    ensures var data: seq<byte> := [0, 0, 0, 1] + [0x66, 0x72, 0x65, 0x65] + seq(7, _ => 0) + [8];
      var r := DecodeHeader(data, 0);
      && r.Success? && r.value.Size() == 8 && r.value.headerSize == 16 && r.value.trunc == 0
      && DecodeHeader(data[0..8], 0) == Failure(ShortRead)
  {
    var data: seq<byte> := [0, 0, 0, 1] + [0x66, 0x72, 0x65, 0x65] + seq(7, _ => 0) + [8];
    assert data[0..4] == seq(3, _ => 0) + [1];
    BeUintLowByte(3, 1);
    assert data[8..16] == seq(7, _ => 0) + [8];
    BeUintLowByte(7, 8);
    assert Size32At(data[0..8], 0) == 1 by {
      assert data[0..8][0..4] == data[0..4];
    }
  }

  /** A value in a keyed record (`get_header`'s dictionary, `box_info`). */
  datatype Value = IntValue(n: int) | BytesValue(b: seq<byte>) | TextValue(s: string)

  /** An insertion-ordered dictionary. */
  type Record = seq<(string, Value)>

  /** The value stored under `key`, if any. */
  function Lookup(rec: Record, key: string): (v: Option<Value>)
  {
    if rec == [] then None
    else if rec[0].0 == key then Some(rec[0].1)
    else Lookup(rec[1..], key)
  }

  /** Appending a new key to a record makes it findable and hides nothing. */
  lemma {:induction false} LookupAppend(rec: Record, key: string, v: Value, k: string)
    ensures Lookup(rec + [(key, v)], k) ==
      if Lookup(rec, k).Some? then Lookup(rec, k) else if key == k then Some(v) else None
  {
    if rec != [] {
      assert (rec + [(key, v)])[1..] == rec[1..] + [(key, v)];
      LookupAppend(rec[1..], key, v, k);
    }
  }

  predicate DistinctKeys(rec: Record)
  {
    forall i, j :: 0 <= i < j < |rec| ==> rec[i].0 != rec[j].0
  }

  /** `Header.get_header`: the header's properties as a dictionary. */
  function GetHeader(h: Header): (rec: Record)
    requires h.WellFormed()
    ensures DistinctKeys(rec)
    ensures 2 <= |rec| <= 5 && rec[0] == ("size", IntValue(h.size32)) && rec[1] == ("type", BytesValue(h.boxType))
    ensures forall i :: 0 <= i < |rec| ==> rec[i].0 in {"size", "type", "largesize", "uuid", "TruncatedSize"}
  {
    var base: Record := [("size", IntValue(h.size32)), ("type", BytesValue(h.boxType))];
    var withLarge := if h.size32 == 1 then base + [("largesize", IntValue(h.largesize.value))] else base;
    var withUuid := if h.boxType == UUID then withLarge + [("uuid", BytesValue(h.uuid.value))] else withLarge;
    if h.trunc > 0 then withUuid + [("TruncatedSize", IntValue(h.trunc))] else withUuid
  }

  /**
   * `get_header` always holds the raw size field and the type; it holds
   * "largesize" exactly when the size field is 1, "uuid" exactly when the
   * type is "uuid", and "TruncatedSize" exactly when the box is truncated,
   * each with the header's value.
   */
  lemma GetHeaderKeys(h: Header)
    requires h.WellFormed()
    ensures var rec := GetHeader(h);
      && Lookup(rec, "size") == Some(IntValue(h.size32))
      && Lookup(rec, "type") == Some(BytesValue(h.boxType))
      && Lookup(rec, "largesize") == (if h.size32 == 1 then Some(IntValue(h.largesize.value)) else None)
      && Lookup(rec, "uuid") == (if h.boxType == UUID then Some(BytesValue(h.uuid.value)) else None)
      && Lookup(rec, "TruncatedSize") == (if h.trunc > 0 then Some(IntValue(h.trunc)) else None)
  {
    var base: Record := [("size", IntValue(h.size32)), ("type", BytesValue(h.boxType))];
    var withLarge := if h.size32 == 1 then base + [("largesize", IntValue(h.largesize.value))] else base;
    var withUuid := if h.boxType == UUID then withLarge + [("uuid", BytesValue(h.uuid.value))] else withLarge;
    var rec := GetHeader(h);
    assert base[1..] == [("type", BytesValue(h.boxType))] && base[1..][1..] == [];
    forall k | k in ["largesize", "uuid", "TruncatedSize"]
      ensures Lookup(base, k) == None
    {
      assert k != "size" && k != "type";
      assert Lookup(base[1..][1..], k) == None;
      assert Lookup(base[1..], k) == None;
    }
    if h.size32 == 1 {
      var v := IntValue(h.largesize.value);
      LookupAppend(base, "largesize", v, "size");
      LookupAppend(base, "largesize", v, "type");
      LookupAppend(base, "largesize", v, "largesize");
      LookupAppend(base, "largesize", v, "uuid");
      LookupAppend(base, "largesize", v, "TruncatedSize");
    }
    if h.boxType == UUID {
      var v := BytesValue(h.uuid.value);
      LookupAppend(withLarge, "uuid", v, "size");
      LookupAppend(withLarge, "uuid", v, "type");
      LookupAppend(withLarge, "uuid", v, "largesize");
      LookupAppend(withLarge, "uuid", v, "uuid");
      LookupAppend(withLarge, "uuid", v, "TruncatedSize");
    }
    if h.trunc > 0 {
      var v := IntValue(h.trunc);
      LookupAppend(withUuid, "TruncatedSize", v, "size");
      LookupAppend(withUuid, "TruncatedSize", v, "type");
      LookupAppend(withUuid, "TruncatedSize", v, "largesize");
      LookupAppend(withUuid, "TruncatedSize", v, "uuid");
      LookupAppend(withUuid, "TruncatedSize", v, "TruncatedSize");
    }
  }

  // ---------------------------------------------------------------- Mp4Box

  /** What a box's `parent` is: the file itself, or an enclosing box. */
  datatype Parent = FileRoot | InBox(box: Box)

  /**
   * `Mp4Box`: its header, its parent, the offset of its first header byte in
   * the file, its children and decoded fields (filled in by code outside this
   * model), and, for a top-level box only, the bytes it buffers.
   */
  datatype Box = Box(
    header: Header,
    parent: Parent,
    startOfBox: nat,
    childBoxes: seq<Box>,
    boxInfo: Record,
    byteString: Option<seq<byte>>)
  {
    /** `Mp4Box.size` */
    function Size(): (n: nat)
      requires header.WellFormed()
    {
      header.Size()
    }

    /** `Mp4Box.type` */
    function Type(): (t: seq<byte>)
    {
      header.boxType
    }

    /** `Mp4Box.trunc()` */
    function Trunc(): (n: nat)
    {
      header.trunc
    }
  }

  /** `parent.type`: the file reports "file", a box its own type code. */
  function TypeOf(p: Parent): (t: seq<byte>)
  {
    match p
    case FileRoot => FILE
    case InBox(b) => b.Type()
  }

  /** The test the source applies: is the parent's type "file"? */
  predicate IsTopLevel(b: Box)
  {
    TypeOf(b.parent) == FILE
  }

  /**
   * How many bytes a top-level box buffers at most: its size, except that an
   * "mdat" larger than MDAT_BUFFER_CAP is capped at MDAT_BUFFER_CAP.
   */
  function BufferLimit(h: Header): (n: nat)
    requires h.WellFormed()
    ensures n <= h.Size()
    ensures n == h.Size() || (h.boxType == MDAT && n == MDAT_BUFFER_CAP < h.Size())
    ensures h.boxType == MDAT && h.Size() > MDAT_BUFFER_CAP ==> n == MDAT_BUFFER_CAP
  {
    if h.boxType == MDAT && h.Size() > MDAT_BUFFER_CAP then MDAT_BUFFER_CAP else h.Size()
  }

  /** The box's buffer holds the file's bytes from the box's start onwards. */
  predicate BufferedFrom(data: seq<byte>, b: Box)
  {
    b.byteString.Some? && BytesOfFileAt(data, b.byteString.value, b.startOfBox)
  }

  /**
   * What `Mp4Box(fp, header, parent)` builds when the position is
   * `endOfHeader`, or the error it raises: a top-level box whose buffer
   * length does not fit `f.read` fails with OverflowError.
   */
  function BoxAt(data: seq<byte>, endOfHeader: nat, h: Header, parent: Parent): (r: Result<Box, DecodeError>)
    requires h.WellFormed() && h.headerSize <= endOfHeader
    ensures r.Failure? <==> TypeOf(parent) == FILE && BufferLimit(h) > MAX_READ
    ensures r.Failure? ==> r.error == ReadOverflow
    ensures r.Success? ==>
      var b := r.value;
      && b.startOfBox + h.headerSize == endOfHeader
      && b.header == h && b.parent == parent
      && b.childBoxes == [] && b.boxInfo == []
      && (b.byteString.Some? <==> TypeOf(parent) == FILE)
      && (b.byteString.Some? ==>
            && BufferedFrom(data, b)
            && |b.byteString.value| == Max(0, Min(BufferLimit(h), |data| - b.startOfBox)))
  {
    var start := endOfHeader - h.headerSize;
    if TypeOf(parent) != FILE then Success(Box(h, parent, start, [], [], None))
    else if BufferLimit(h) > MAX_READ then Failure(ReadOverflow)
    else Success(Box(h, parent, start, [], [], Some(ReadAt(data, start, BufferLimit(h)))))
  }

  /**
   * `Mp4Box.__init__`: called with the position at the end of the header,
   * which it leaves there; a top-level box seeks back to its start to
   * buffer its bytes first (and is left there if that read raises).
   */
  method NewBox(f: Cursor, header: Header, parent: Parent) returns (r: Result<Box, DecodeError>)
    requires header.WellFormed() && header.headerSize <= f.pos
    modifies f
    ensures r == BoxAt(f.data, old(f.pos), header, parent)
    ensures r.Success? ==> f.pos == old(f.pos)
    ensures r.Failure? ==> f.pos == old(f.pos) - header.headerSize
  {
    var here := f.Tell();
    var startOfBox := here - header.headerSize;
    var byteString: Option<seq<byte>> := None;
    if TypeOf(parent) == FILE {
      var endOfHeader := f.Tell();
      f.Seek(startOfBox);
      var bytes;
      if header.boxType == MDAT && header.Size() > MDAT_BUFFER_CAP {
        bytes := f.Read(MDAT_BUFFER_CAP);
      } else {
        bytes := f.Read(header.Size());
      }
      if bytes.None? {
        return Failure(ReadOverflow);
      }
      byteString := bytes;
      f.Seek(endOfHeader);
    }
    return Success(Box(header, parent, startOfBox, [], [], byteString));
  }

  /**
   * A top-level box built right after its header was decoded exists unless
   * its buffer length overflows `f.read`; it buffers `min(limit, bytes left
   * from its start)` bytes, and when it is neither capped nor truncated that
   * is all `size` bytes of the box.
   */
  lemma TopLevelBuffer(data: seq<byte>, start: nat, parent: Parent)
    requires DecodeHeader(data, start).Success?
    requires TypeOf(parent) == FILE
    ensures var h := DecodeHeader(data, start).value;
      var r := BoxAt(data, start + h.headerSize, h, parent);
      && (r.Success? <==> BufferLimit(h) <= MAX_READ)
      && (r.Success? ==>
            && r.value.startOfBox == start
            && |r.value.byteString.value| == Min(BufferLimit(h), |data| - start)
            && (h.boxType == MDAT && h.Size() > MDAT_BUFFER_CAP ==>
                  |r.value.byteString.value| == Min(MDAT_BUFFER_CAP, |data| - start))
            && (!(h.boxType == MDAT && h.Size() > MDAT_BUFFER_CAP) ==>
                  |r.value.byteString.value| == Min(h.Size(), |data| - start))
            && (h.trunc == 0 && BufferLimit(h) == h.Size() ==>
                  r.value.byteString.value == data[start..start + h.Size()]))
  {
    var h := DecodeHeader(data, start).value;
    HeaderLength(data, start);
    Truncation(data, start);
  }

  /**
   * A top-level box, other than "mdat", whose declared size exceeds what
   * `f.read` accepts decodes as a header but fails when the box buffers its
   * bytes.
   */
  lemma OversizedTopLevelRead(data: seq<byte>, start: nat)
    requires start + 16 <= |data| && Size32At(data, start) == 1
    requires BeUint(data[start + 8..start + 16]) > MAX_READ
    requires data[start + 4..start + 8] != MDAT
    ensures DecodeHeader(data, start).Success?
    ensures var h := DecodeHeader(data, start).value;
      BoxAt(data, start + h.headerSize, h, FileRoot) == Failure(ReadOverflow)
  {
    assert TypeAt(data, start) == data[start + 4..start + 8];
  }

  /**
   * An "mdat" box that declares 2,000,000 bytes with only 500,000 left in the
   * file is truncated by 1,500,000 and, at top level, buffers only the
   * 500,000 bytes that exist.
   */
  lemma TruncatedMdat(data: seq<byte>, start: nat)
    requires start + 8 <= |data| == start + 500000
    requires Size32At(data, start) == 2000000 && data[start + 4..start + 8] == MDAT
    ensures DecodeHeader(data, start).Success?
    ensures var h := DecodeHeader(data, start).value;
      var r := BoxAt(data, start + h.headerSize, h, FileRoot);
      && h.Size() == 2000000 && h.trunc == 1500000 && h.headerSize == 8
      && BufferLimit(h) == MDAT_BUFFER_CAP
      && r.Success? && |r.value.byteString.value| == 500000
  {
    assert TypeAt(data, start) == MDAT;
    var h := DecodeHeader(data, start).value;
    Truncation(data, start);
    HeaderLength(data, start);
    TopLevelBuffer(data, start, FileRoot);
  }

  /** The chain of boxes from `b` up to the box whose parent is the file. */
  function Chain(b: Box): (c: seq<Box>)
    ensures |c| >= 1 && c[0] == b
    ensures c[|c| - 1].parent.FileRoot?
    decreases b
  {
    match b.parent
    case FileRoot => [b]
    case InBox(p) => [b] + Chain(p)
  }

  /** `Mp4Box.get_top`: the nearest box, `b` itself or an ancestor, whose parent has type "file". */
  function GetTop(b: Box): (t: Box)
    ensures IsTopLevel(t)
    decreases b
  {
    if IsTopLevel(b) then b else GetTop(b.parent.box)
  }

  /** `get_top` returns `b` itself or one of its ancestors. */
  lemma {:induction false} GetTopInChain(b: Box)
    ensures GetTop(b) in Chain(b)
    decreases b
  {
    if !IsTopLevel(b) {
      GetTopInChain(b.parent.box);
      assert Chain(b) == [b] + Chain(b.parent.box);
    }
  }

  /** `get_top` stops at the first box along the chain whose parent has type "file". */
  lemma {:induction false} GetTopIsNearest(b: Box, i: nat)
    requires i < |Chain(b)| && IsTopLevel(Chain(b)[i])
    requires forall j :: 0 <= j < i ==> !IsTopLevel(Chain(b)[j])
    ensures GetTop(b) == Chain(b)[i]
    decreases b
  {
    if i > 0 {
      assert !IsTopLevel(Chain(b)[0]);
      var p := b.parent.box;
      assert Chain(b) == [b] + Chain(p);
      forall j | 0 <= j < i - 1
        ensures !IsTopLevel(Chain(p)[j])
      {
        assert Chain(p)[j] == Chain(b)[j + 1];
      }
      GetTopIsNearest(p, i - 1);
    }
  }

  /**
   * When no box along the chain has the type code "file", `get_top` returns
   * the outermost box, and it is the only box of the chain that counts as
   * top-level.
   */
  lemma {:induction false} GetTopUnique(b: Box)
    requires forall j :: 0 <= j < |Chain(b)| ==> Chain(b)[j].Type() != FILE
    ensures GetTop(b) == Chain(b)[|Chain(b)| - 1]
    ensures forall j :: 0 <= j < |Chain(b)| ==> (IsTopLevel(Chain(b)[j]) <==> j == |Chain(b)| - 1)
    decreases b
  {
    match b.parent
    case FileRoot =>
    case InBox(p) =>
      assert Chain(b) == [b] + Chain(p);
      forall j | 0 <= j < |Chain(p)|
        ensures Chain(p)[j].Type() != FILE
      {
        assert Chain(p)[j] == Chain(b)[j + 1];
      }
      GetTopUnique(p);
      assert !IsTopLevel(b);
      forall j | 0 <= j < |Chain(b)|
        ensures IsTopLevel(Chain(b)[j]) <==> j == |Chain(b)| - 1
      {
        if j > 0 {
          assert Chain(b)[j] == Chain(p)[j - 1];
        }
      }
  }

  /**
   * `Mp4Box.get_bytes`: the box's bytes, sliced out of its top-level
   * ancestor's buffer at the difference of the two start offsets.
   */
  function GetBytes(b: Box): (r: seq<byte>)
    requires b.header.WellFormed()
    requires GetTop(b).byteString.Some?
    ensures var top := GetTop(b);
      var buffer := top.byteString.value;
      var offset := b.startOfBox - top.startOfBox;
      && (0 <= offset ==> |r| == Min(b.Size(), Max(0, |buffer| - offset)))
      && (0 <= offset ==> forall i :: 0 <= i < |r| ==> offset + i < |buffer| && r[i] == buffer[offset + i])
  {
    var top := GetTop(b);
    var offset := b.startOfBox - top.startOfBox;
    PySlice(top.byteString.value, offset, offset + b.Size())
  }

  /**
   * A box that lies inside the span its top-level ancestor buffered gets
   * exactly its own bytes of the file from `get_bytes`, without holding a
   * copy of them.
   */
  lemma GetBytesMatchesFile(data: seq<byte>, b: Box)
    requires b.header.WellFormed()
    requires BufferedFrom(data, GetTop(b))
    requires GetTop(b).startOfBox <= b.startOfBox
    requires b.startOfBox + b.Size() <= GetTop(b).startOfBox + |GetTop(b).byteString.value|
    ensures |GetBytes(b)| == b.Size()
    ensures GetBytes(b) == ReadAt(data, b.startOfBox, b.Size())
  {
    var top := GetTop(b);
    var offset := b.startOfBox - top.startOfBox;
    assert GetBytes(b) == PySlice(top.byteString.value, offset, offset + b.Size());
    SliceOfBuffer(data, top.byteString.value, top.startOfBox, offset, b.Size());
  }

  /** Slicing a buffer read from the file at `origin` is reading the file. */
  lemma SliceOfBuffer(data: seq<byte>, buffer: seq<byte>, origin: nat, offset: nat, size: nat)
    requires BytesOfFileAt(data, buffer, origin)
    requires offset + size <= |buffer|
    ensures PySlice(buffer, offset, offset + size) == ReadAt(data, origin + offset, size)
    ensures |ReadAt(data, origin + offset, size)| == size
  {
    var r := PySlice(buffer, offset, offset + size);
    var file := ReadAt(data, origin + offset, size);
    if size > 0 {
      var last := offset + size - 1;
      assert last < |buffer|;
      assert origin + last < |data| && buffer[last] == data[origin + last];
    }
    assert |file| == size;
    assert |r| == size;
    forall i | 0 <= i < size
      ensures r[i] == file[i]
    {
      assert offset + i < |buffer|;
      assert r[i] == buffer[offset + i];
      assert buffer[offset + i] == data[origin + offset + i];
    }
  }

  /**
   * For a top-level box that is neither capped nor truncated (and whose size
   * `f.read` accepts), `get_bytes` is its whole buffer, which is the box's
   * `size` bytes of the file.
   */
  lemma GetBytesWholeBuffer(data: seq<byte>, start: nat)
    requires DecodeHeader(data, start).Success?
    requires var h := DecodeHeader(data, start).value;
      h.trunc == 0 && BufferLimit(h) == h.Size() <= MAX_READ
    ensures var h := DecodeHeader(data, start).value;
      var r := BoxAt(data, start + h.headerSize, h, FileRoot);
      && r.Success?
      && GetBytes(r.value) == r.value.byteString.value
      && GetBytes(r.value) == data[start..start + h.Size()]
  {
    var h := DecodeHeader(data, start).value;
    TopLevelBuffer(data, start, FileRoot);
    var b := BoxAt(data, start + h.headerSize, h, FileRoot).value;
    assert GetTop(b) == b;
    GetBytesMatchesFile(data, b);
  }

  // ------------------------------------------------------------ Mp4FullBox

  /** The `box_info` of a FullBox whose leading u32 is `u`. */
  function FullBoxInfo(u: nat): (rec: Record)
  {
    [("version", IntValue(u / VERSION_WEIGHT)), ("flags", TextValue(FormatFlags(u % VERSION_WEIGHT)))]
  }

  /**
   * The version is the first of the four bytes and the flags the other
   * three: version * 2^24 + flags is the u32, the version fits in a byte,
   * and the flags are written as "0x" and six lower-case hex digits.
   */
  lemma VersionFlagsSplit(four: seq<byte>)
    requires |four| == 4
    ensures var u := BeUint(four);
      var version := u / VERSION_WEIGHT;
      var flags := u % VERSION_WEIGHT;
      && version == four[0] < 256
      && flags == BeUint(four[1..]) < VERSION_WEIGHT
      && version * VERSION_WEIGHT + flags == u
      && FullBoxInfo(u) == [("version", IntValue(version)), ("flags", TextValue(FormatFlags(flags)))]
      && |FormatFlags(flags)| == 8 && FormatFlags(flags)[..2] == "0x"
      && AllHexDigits(FormatFlags(flags)[2..]) && ParseHex(FormatFlags(flags)[2..]) == flags
  {
    var u := BeUint(four);
    BeUintFirst(four);
    assert Pow256(3) == VERSION_WEIGHT;
    var lo := BeUint(four[1..]);
    assert u == four[0] * VERSION_WEIGHT + lo && lo < VERSION_WEIGHT;
    DivModUnique(u, four[0], lo);
    FlagsFormat(u % VERSION_WEIGHT);
  }

  lemma DivModUnique(u: nat, q: nat, r: nat)
    requires u == q * VERSION_WEIGHT + r && r < VERSION_WEIGHT
    ensures u / VERSION_WEIGHT == q && u % VERSION_WEIGHT == r
  {
  }

  /**
   * What `Mp4FullBox(fp, header, parent)` builds when the position is
   * `endOfHeader`: the base box, with the version and flags split from the
   * next four bytes; reading them fails when the file ends first, and the
   * base box can fail as `BoxAt` says.
   */
  function FullBoxAt(data: seq<byte>, endOfHeader: nat, h: Header, parent: Parent): (r: Result<Box, DecodeError>)
    requires h.WellFormed() && h.headerSize <= endOfHeader
    ensures r.Success? <==> BoxAt(data, endOfHeader, h, parent).Success? && endOfHeader + 4 <= |data|
    ensures r.Failure? ==>
      r.error == if BoxAt(data, endOfHeader, h, parent).Failure? then ReadOverflow else ShortRead
    ensures r.Success? ==>
      && r.value == BoxAt(data, endOfHeader, h, parent).value.(boxInfo := r.value.boxInfo)
      && r.value.boxInfo == [("version", IntValue(data[endOfHeader])),
                             ("flags", TextValue(FormatFlags(BeUint(data[endOfHeader + 1..endOfHeader + 4]))))]
  {
    var base :- BoxAt(data, endOfHeader, h, parent);
    if endOfHeader + 4 > |data| then Failure(ShortRead)
    else
      var four := data[endOfHeader..endOfHeader + 4];
      VersionFlagsSplit(four);
      assert four[1..] == data[endOfHeader + 1..endOfHeader + 4];
      Success(base.(boxInfo := FullBoxInfo(BeUint(four))))
  }

  /** `FullBoxAt` when the base box fails: the read overflow is passed on. */
  lemma FullBoxAtOverflow(data: seq<byte>, endOfHeader: nat, h: Header, parent: Parent)
    requires h.WellFormed() && h.headerSize <= endOfHeader
    requires BoxAt(data, endOfHeader, h, parent).Failure?
    ensures FullBoxAt(data, endOfHeader, h, parent) == Failure(ReadOverflow)
  {
  }

  /** `FullBoxAt` when the base box exists: the four bytes decide. */
  lemma FullBoxAtAfterBase(data: seq<byte>, endOfHeader: nat, h: Header, parent: Parent, base: Box)
    requires h.WellFormed() && h.headerSize <= endOfHeader
    requires BoxAt(data, endOfHeader, h, parent) == Success(base)
    ensures endOfHeader + 4 > |data| ==> FullBoxAt(data, endOfHeader, h, parent) == Failure(ShortRead)
    ensures endOfHeader + 4 <= |data| ==>
      FullBoxAt(data, endOfHeader, h, parent) ==
        Success(base.(boxInfo := FullBoxInfo(BeUint(data[endOfHeader..endOfHeader + 4]))))
  {
  }

  /**
   * `Mp4FullBox.__init__`: builds the base box, then reads the u32 that
   * follows the header, moving the position 4 bytes forward.
   */
  method NewFullBox(f: Cursor, header: Header, parent: Parent) returns (r: Result<Box, DecodeError>)
    requires header.WellFormed() && header.headerSize <= f.pos
    modifies f
    ensures r == FullBoxAt(f.data, old(f.pos), header, parent)
    ensures r.Success? ==> f.pos == old(f.pos) + 4
    ensures r.Failure? && r.error == ShortRead ==> f.pos == Max(old(f.pos), |f.data|)
    ensures r.Failure? && r.error == ReadOverflow ==> f.pos == old(f.pos) - header.headerSize
  {
    ghost var data, endOfHeader := f.data, f.pos;
    ghost var spec := FullBoxAt(data, endOfHeader, header, parent);
    var base := NewBox(f, header, parent);
    if base.Failure? {
      FullBoxAtOverflow(data, endOfHeader, header, parent);
      assert spec == Failure(ReadOverflow);
      return Failure(ReadOverflow);
    }
    FullBoxAtAfterBase(data, endOfHeader, header, parent, base.value);
    assert f.pos == endOfHeader;
    var fourBytes := f.ReadU32();
    if fourBytes.None? {
      assert spec == Failure(ShortRead);
      return Failure(ShortRead);
    }
    assert fourBytes.value == BeUint(data[endOfHeader..endOfHeader + 4]);
    r := Success(base.value.(boxInfo := FullBoxInfo(fourBytes.value)));
    assert r == spec;
  }
}
