# mp4analyser box envelope, in Dafny

This project models the generic box envelope of ISO/IEC 14496-12 (section 4.2,
"Object Structure") as `mp4/core.py` of mp4analyser decodes it, and proves
properties of that model. It covers three things:

- the box **header**: a 32-bit `size` and a 4-byte `type`, then a 64-bit
  `largesize` when `size` is 1, then a 16-byte extended type when the type is
  `uuid`;
- the base **box** (`Mp4Box`): it records where it starts in the file. A
  top-level box buffers its own bytes, capped at 1000001 for large `mdat`
  boxes. Any box finds its bytes by slicing its top-level ancestor's buffer;
- the **FullBox** prefix: the next big-endian u32 is split into an 8-bit
  `version` and 24-bit `flags`.

## Layout

- `results.dfy`: `Option` and `Result`.
- `bytes.dfy`: bytes, big-endian decoding (`BeUint`), and two pieces of Python
  semantics. `ReadAt` is `f.read(n)`, which returns fewer bytes at end of file
  instead of failing. `PySlice` is `s[a:b]`, which clamps its bounds.
- `cursor.dfy`: class `Cursor`, the open file. Its contents are a constant
  byte sequence and its position a mutable field. It has `Tell`, `Seek`,
  `SeekEnd`, `Read`, `ReadU32` and `ReadU64`.
- `hex.dfy`: Python's `"{0:#08x}".format(n)` (`FormatFlags`), and its inverse
  `ParseHex`.
- `core.dfy`: the `Header` and `Box` datatypes, and the operations of
  `mp4/core.py`.

A header and a box never change after their constructor returns, so both are
datatypes. What changes while they are built is the file position. Each
Python constructor is therefore an imperative method over the `Cursor`. It
repeats the source's steps (tell, seek to the end, seek back, read, and so on)
and is proved to return what a pure function of the file contents and the
starting position specifies:

- `ReadHeader` is specified by `DecodeHeader`;
- `NewBox` by `BoxAt`;
- `NewFullBox` by `FullBoxAt`.

Its `ensures` also gives the file position on exit. The lemmas are stated
about the pure functions.

The parent chain is a datatype. Its base case `FileRoot` stands for the file
object, whose `type` is `"file"`. The test for "top level" is exactly the
source's test, `parent.type == 'file'`. A box whose own type code is `file`
would therefore make its children count as top-level. `GetTopUnique` states
what `get_top` returns when no box along the chain has that type code.

Behaviour of the code that differs from a plain reading of the format:

- A 32-bit size of 0 is rejected like any size below 8. There is no "extends
  to the end of the file" case (`SmallSizeRejected`).
- The header length can be 8, 16, 24 or 32. It is 24 for a `uuid` box without
  `largesize`. It is shorter only when the file ends inside the header, because
  the 4-byte type and 16-byte uuid reads are not checked for length
  (`HeaderLength`).
- The declared size is only required to be at least 8, not at least the header
  length. A `uuid` box declaring 8 bytes is accepted with a 24-byte header
  (`UuidHeaderLongerThanSize`).
- So a box's own `size` bytes do not always hold its header. When they do,
  the header decodes from those bytes alone to the same value
  (`SliceRoundTrip`). A 16-byte box with a size field of 1 and a largesize of
  8 decodes in place, but its 8 declared bytes give a short read
  (`LargesizeSliceDoesNotRoundTrip`).
- A top-level box whose buffer length exceeds 2^63 - 1 (possible only through
  `largesize`) decodes as a header. Building the box then fails, because
  CPython's `f.read` raises OverflowError for such a length
  (`OversizedTopLevelRead`).

## Model

| member | source | states |
|---|---|---|
| `Bytes.ReadAt` | mp4/core.py:77 | `f.read(n)` returns at most n bytes. They are the file's next bytes. The result is short only when the end of the file is reached, and empty from a position at or past the end. |
| `Bytes.PySlice` | mp4/core.py:51 | For non-negative bounds, a Python slice holds `max(0, min(b, len) - a)` elements, and element i is `s[a + i]`. |
| `Cursors.Cursor.Read` | mp4/core.py:77 | For `n` up to 2^63 - 1 the returned bytes are what `f.read(n)` gives at the old position, and the position advances by their count. A larger `n` fails (OverflowError) and leaves the position unchanged. |
| `Cursors.Cursor.ReadU32` | mp4/core.py:76 | `read_u32` returns the big-endian value of the next 4 bytes and advances by 4. When fewer than 4 bytes remain it fails and leaves the position at the end of the file, or where it was if that is already past the end. |
| `Cursors.Cursor.ReadU64` | mp4/core.py:79 | `read_u64`, the same for 8 bytes. |
| `Core.DecodeHeader` | mp4/core.py:67-90 | A decoded header is well-formed (`largesize` present iff size is 1, `uuid` present iff type is `uuid`) and declares at least 8 bytes. A rejected one is the header the file holds at that position, and it declares fewer than 8. A read error occurs exactly when the size field, or the largesize when the size is 1, runs past the end of the file. |
| `Core.ReadSizeFields` | mp4/core.py:76-79 | The size field, the type and (for a size field of 1) the largesize are read from the file at the entry position, and the position moves past them. It fails exactly when the file ends before a size field, and then leaves the position at the end of the file, or where it was if that is already past the end. |
| `Core.ReadHeader` | mp4/core.py:67-90 | `Header(fp)` produces `DecodeHeader` of the file at the entry position. On success, and on a too-small size, the position ends at start + `header_size`. After a short read it is at the end of the file, or where it was if that is already past the end. |
| `Core.DeclaredSize` | mp4/core.py:76-97 | The declared size is the 32-bit field, except when that field is 1. Then it is the 64-bit value at bytes 8..16 of the box. The type is the next (up to) 4 bytes after the size. |
| `Core.Truncation` | mp4/core.py:71-84 | `trunc == max(0, declared - (fileLength - start))`. So `trunc > 0` iff the declared size exceeds the bytes left from the box start, and the declared size minus `trunc` always fits in the file. |
| `Core.HeaderLength` | mp4/core.py:72-87 | `header_size` is exactly `min(8 + (8 if size is 1) + (16 if uuid), fileLength - start)`. So it equals the standard's layout whenever the file holds it, and is shorter only when the header ends at end of file. |
| `Core.UuidPlacement` | mp4/core.py:85-87 | The uuid is present iff the type is `uuid`. It is the 16 bytes after the largesize when there is one, and after the type otherwise. |
| `Core.SmallSizeRejected` | mp4/core.py:76-90 | For a size field other than 1, the header decodes iff the field is at least 8, and is otherwise rejected as too small. For a size field of 1, it is a short read when the file does not hold the largesize; otherwise it decodes iff the largesize is at least 8, and is otherwise rejected as too small. |
| `Core.UuidHeaderLongerThanSize` | mp4/core.py:85-90 | A `uuid` box declaring 8 bytes decodes, with a 24-byte header. |
| `Core.SliceRoundTrip` | mp4/core.py:67-90 | A box that lies inside the file and whose `size` covers the standard's header layout is not truncated. Decoding its own `size` bytes, sliced out of the file, gives back the header it has in place. |
| `Core.LargesizeSliceDoesNotRoundTrip` | mp4/core.py:76-90 | The 16-byte file `00 00 00 01 'free' 00 00 00 00 00 00 00 08` decodes in place with size 8, a 16-byte header and no truncation, but its first 8 bytes alone give a short read. |
| `Core.GetHeader` | mp4/core.py:99-108 | `get_header` has distinct keys drawn from the five header keys, and starts with `size` (the raw field) and `type`. |
| `Core.GetHeaderKeys` | mp4/core.py:99-108 | `size` and `type` are always present. `largesize` is present iff size is 1, `uuid` iff the type is `uuid`, and `TruncatedSize` iff `trunc > 0`. Each holds the header's value. |
| `Core.BufferLimit` | mp4/core.py:27-30 | A top-level box buffers at most its size. An `mdat` larger than 1000001 is capped at exactly 1000001, and no other box is capped. |
| `Core.BoxAt` | mp4/core.py:14-31 | The box fails (OverflowError) exactly when its parent has type `file` and its buffer length exceeds 2^63 - 1. Otherwise `start_of_box == pos - header_size`, children and `box_info` are empty, and a buffer exists iff the parent's type is `file`. The buffer holds `min(limit, fileLength - start)` bytes, and they are the file's bytes from the box start. |
| `Core.NewBox` | mp4/core.py:14-31 | `Mp4Box(fp, header, parent)` produces `BoxAt` at the entry position. On success it leaves the position where it was on entry. When the read fails, the position is left at the box start. |
| `Core.TopLevelBuffer` | mp4/core.py:24-30 | A top-level box built right after its header exists iff its buffer length is at most 2^63 - 1. It then buffers `min(limit, bytes left)` bytes: `min(1000001, bytes left)` for an `mdat` larger than 1000001, and `min(size, bytes left)` for any other box. When it is neither capped nor truncated, the buffer is exactly its `size` bytes of the file. |
| `Core.OversizedTopLevelRead` | mp4/core.py:24-30 | A top-level non-`mdat` box with size field 1 and a largesize above 2^63 - 1 decodes as a header, and building the box then fails with the read overflow. |
| `Core.TruncatedMdat` | mp4/core.py:27-28 | An `mdat` declaring 2,000,000 bytes with 500,000 left has `trunc` 1,500,000. It is capped at 1000001 and buffers the 500,000 bytes that exist. |
| `Core.GetTop` | mp4/core.py:42-46 | The box `get_top` returns has a parent of type `file`. |
| `Core.GetTopInChain` | mp4/core.py:42-46 | `get_top` returns a box on the chain from the box up through its parents. |
| `Core.GetTopIsNearest` | mp4/core.py:42-46 | `get_top` returns the first box on that chain whose parent has type `file`. |
| `Core.GetTopUnique` | mp4/core.py:42-46 | When no box on the chain has type code `file`, `get_top` returns the outermost box. It is the only box on the chain whose parent has type `file`. |
| `Core.GetBytes` | mp4/core.py:48-51 | With `o = start_of_box - top.start_of_box >= 0`, the result holds `min(size, max(0, len(buffer) - o))` bytes (so it is empty when o is past the buffer), and byte i is `buffer[o + i]`. |
| `Core.GetBytesMatchesFile` | mp4/core.py:48-51 | A box lying inside the span its top-level ancestor buffered gets exactly its `size` bytes of the file, without a copy of its own. |
| `Core.GetBytesWholeBuffer` | mp4/core.py:24-51 | For an uncapped, untruncated top-level box whose size `f.read` accepts, the box exists and `get_bytes` is its whole buffer, which is the file's bytes `start .. start + size`. |
| `Hex.FlagsFormat` | mp4/core.py:60 | For a 24-bit value, `"{0:#08x}"` (modelled by `Hex.FormatFlags`) gives `0x` followed by exactly 6 lower-case hex digits, and those digits parse back to the value. |
| `Core.VersionFlagsSplit` | mp4/core.py:59-60 | In the `box_info` dictionary that `Core.FullBoxInfo` builds from the u32, `version` is the first byte and `flags` the big-endian value of the other three. `version * 2^24 + flags` is the u32, `version < 256` and `flags < 2^24`, and the flags text is 8 characters that parse back to `flags`. |
| `Core.FullBoxAt` | mp4/core.py:54-60 | A FullBox decodes iff its base box does and 4 bytes follow the header. It is then the base box with `box_info = [version: the byte after the header, flags: the formatted value of the next three bytes]`. A failing base box gives its read overflow; otherwise a missing u32 gives a short read. |
| `Core.NewFullBox` | mp4/core.py:54-60 | `Mp4FullBox(fp, header, parent)` produces `FullBoxAt` at the entry position and moves the position 4 bytes forward. After a short u32 read the position is at the end of the file, or where it was if that is already past the end. After a base-box overflow it is at the box start. |

## Left out

- mp4analyser.py is the tkinter viewer (tree, search, detail and hex panes). It is presentation only.
- The tree builder, the type-code registry, the per-type field decoders and `Mp4File` are not part of this model. They live in mp4/iso.py and mp4/non_iso.py, which are not in this model. The model never appends to `child_boxes` and never fills `box_info` beyond the FullBox version and flags.
- mp4/util.py is not part of this model. `ReadU32` and `ReadU64` stand in for `read_u32` and `read_u64`: a 4- or 8-byte read, decoded big-endian, that fails (an error result) when fewer bytes came back. After such a failure the position is at the end of the file, or where it was if that is already past the end, as a plain `f.read` leaves it.
- Real file I/O is modelled as a byte sequence plus a position (`Cursor`).
- The Python exception raised for a small size is the `BoxTooSmall` error value. Its message text is not modelled.
- UTF-8 decoding of the type code is not modelled; the 4 raw bytes are kept. Decoding 4 bytes with `errors="ignore"` yields `"uuid"`, `"mdat"` or `"file"` only when the bytes are exactly those ASCII codes, so comparing bytes gives the same answers.
- A parent is held by value, not by reference. A box carries a copy of its ancestors as they were when it was built, so later mutation of an ancestor (its `child_boxes`) is not visible through `parent`.
- `Core.Box.Size`, `Core.Box.Type` and `Core.Box.Trunc` (mp4/core.py:33-41) and `Core.Header.Size` (mp4/core.py:92-97) simply read the header. Their content is stated by `DeclaredSize` and the lemmas that use them.
- JSON rendering of `get_header` and `box_info` is not modelled.
- A read whose length CPython accepts but cannot allocate raises MemoryError. That limit depends on the machine, so it is not modelled: such a read returns the bytes the file holds.
