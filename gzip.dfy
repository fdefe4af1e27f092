/**
 * gzip.py: the gzip member header (section 2.3.1 of RFC 1952) as the tool reads and
 * rewrites it, the flag names it reports, and the gzip candidate list.
 */
module Gzip {
  import opened Wrappers
  import opened Bytes
  import opened Slices
  import opened Text
  import opened Platform
  import opened Matching

  const GZIP_MAGIC: seq<byte> := [0x1F, 0x8B]
  const GZIP_DEFLATE: byte := 8
  /** `parse_gzip_header` only looks at the first 256 bytes of the file. */
  const GZIP_READ_SIZE: nat := 256
  const GZIP_FIXED_SIZE: nat := 10
  const FEXTRA: nat := 4
  const FNAME: nat := 8
  const FCOMMENT: nat := 16

  datatype GzipHeader = GzipHeader(
    mtime: int, os: int, flags: int,
    extra: Option<seq<byte>>, fname: Option<seq<byte>>, fcomment: Option<seq<byte>>)

  /** A NUL-terminated field: its bytes and the position after the terminator. */
  datatype Field = Field(value: seq<byte>, next: nat)

  /** `end = data.find(b"\x00", pos)`, then the field `data[pos:end]`, reading on at
      `end + 1`; written here as the scan `find` performs, one byte at a time. */
  function ReadZeroTerminated(data: seq<byte>, pos: nat): (r: Option<Field>)
    ensures r.Some? ==> pos + |r.value.value| < |data| && r.value.next == pos + |r.value.value| + 1
    ensures r.Some? ==> data[pos + |r.value.value|] == 0
    decreases |data| - pos
  {
    if pos >= |data| then None
    else if data[pos] == 0 then Some(Field([], pos + 1))
    else match ReadZeroTerminated(data, pos + 1)
      case None => None
      case Some(f) => Some(Field([data[pos]] + f.value, f.next))
  }

  /** The scan is `find` followed by the slice up to the zero byte it finds. */
  lemma {:induction false} ReadZeroTerminatedIsFind(data: seq<byte>, pos: nat)
    ensures ReadZeroTerminated(data, pos)
      == (var end := FindFrom(data, 0, pos); if end == -1 then None else Some(Field(data[pos..end], end + 1)))
    decreases |data| - pos
  {
    if pos < |data| && data[pos] == 0 {
      assert data[pos..pos] == [];
    } else if pos < |data| {
      ReadZeroTerminatedIsFind(data, pos + 1);
      var end := FindFrom(data, 0, pos);
      if end != -1 {
        assert data[pos..end] == [data[pos]] + data[pos + 1..end];
      }
    }
  }

  /** A zero-terminated read fails exactly when no zero byte follows `pos`; otherwise it
      gives the bytes from `pos` up to the first zero, which hold no zero. */
  lemma ReadZeroTerminatedMeaning(data: seq<byte>, pos: nat)
    ensures var r := ReadZeroTerminated(data, pos);
      && (r.None? <==> forall i :: pos <= i < |data| ==> data[i] != 0)
      && (r.Some? ==> data[pos..pos + |r.value.value|] == r.value.value && 0 !in r.value.value)
  {
    ReadZeroTerminatedIsFind(data, pos);
    FindFromFirst(data, 0, pos);
    var end := FindFrom(data, 0, pos);
    if end != -1 {
      assert forall i :: 0 <= i < end - pos ==> data[pos..end][i] == data[pos + i] != 0;
    }
  }

  /** The fields `patch_gzip_header` can write back without Python raising OverflowError:
      mtime fits four bytes and a given extra field fits a two-byte length. */
  predicate Writable(header: GzipHeader) {
    0 <= header.mtime < 0x1_0000_0000
    && (HasBit(header.flags, FEXTRA) && header.extra.Some? ==> |header.extra.value| < 0x1_0000)
  }

  /** An optional field as read (None when its flag is clear) and where reading resumes. */
  datatype Read = Read(field: Option<seq<byte>>, next: nat)

  /** The FEXTRA block of `parse_gzip_header`: XLEN at 10..11, then XLEN bytes, both clamped
      to the window; with the flag clear nothing is read and the cursor stays at 10. */
  function ReadExtra(data: seq<byte>, flags: int): (r: Read)
    ensures r.field.Some? <==> HasBit(flags, FEXTRA)
    ensures r.field.Some? ==> |r.field.value| <= |data|
    ensures r.next >= GZIP_FIXED_SIZE
  {
    if HasBit(flags, FEXTRA) then
      var extraLen := FromLE(Sub(data, 10, 12));
      Read(Some(Sub(data, 12, 12 + extraLen)), 12 + extraLen)
    else Read(None, GZIP_FIXED_SIZE)
  }

  /** The FNAME or FCOMMENT block: with the flag set, the bytes up to the next NUL, or None
      when there is no NUL; with the flag clear, nothing. */
  function ReadString(data: seq<byte>, flags: int, mask: nat, pos: nat): (r: Option<Read>)
    requires mask > 0
    ensures !HasBit(flags, mask) ==> r == Some(Read(None, pos))
    ensures r.Some? && HasBit(flags, mask) ==> r.value.field.Some?
  {
    if !HasBit(flags, mask) then Some(Read(None, pos))
    else match ReadZeroTerminated(data, pos)
      case None => None
      case Some(f) => Some(Read(Some(f.value), f.next))
  }

  /** With the flag set, reading a name or comment fails exactly when no terminator follows
      `pos`; a field that is read holds no zero byte. */
  lemma ReadStringMeaning(data: seq<byte>, flags: int, mask: nat, pos: nat)
    requires mask > 0
    ensures var r := ReadString(data, flags, mask, pos);
      && (HasBit(flags, mask) ==> (r.None? <==> forall i :: pos <= i < |data| ==> data[i] != 0))
      && (r.Some? && HasBit(flags, mask) ==> 0 !in r.value.field.value)
  {
    ReadZeroTerminatedMeaning(data, pos);
  }

  /** The optional fields after the fixed ten bytes, given the flags byte; None when a
      name or comment has no terminator in the window. */
  function ParseOptional(data: seq<byte>, flags: byte, mtime: int, os: byte): (r: Option<GzipHeader>)
    ensures r.Some? ==> r.value == GzipHeader(mtime, os, flags, r.value.extra, r.value.fname, r.value.fcomment)
    ensures r.Some? ==> (r.value.extra.Some? <==> HasBit(flags, FEXTRA))
    ensures r.Some? ==> (r.value.fname.Some? <==> HasBit(flags, FNAME))
    ensures r.Some? ==> (r.value.fcomment.Some? <==> HasBit(flags, FCOMMENT))
    ensures r.Some? && r.value.extra.Some? ==> |r.value.extra.value| <= |data|
    ensures !HasBit(flags, FNAME) && !HasBit(flags, FCOMMENT) ==> r.Some?
  {
    var extra := ReadExtra(data, flags);
    var name := ReadString(data, flags, FNAME, extra.next);
    if name.None? then None
    else
      var comment := ReadString(data, flags, FCOMMENT, name.value.next);
      if comment.None? then None
      else Some(GzipHeader(mtime, os, flags, extra.field, name.value.field, comment.value.field))
  }

  /** A name or comment the parser returns holds no zero byte: it ends at the first one. */
  lemma ParsedFieldsHaveNoNul(data: seq<byte>, flags: byte, mtime: int, os: byte)
    ensures var r := ParseOptional(data, flags, mtime, os);
      && (r.Some? && r.value.fname.Some? ==> 0 !in r.value.fname.value)
      && (r.Some? && r.value.fcomment.Some? ==> 0 !in r.value.fcomment.value)
  {
    var extra := ReadExtra(data, flags);
    ReadStringMeaning(data, flags, FNAME, extra.next);
    var name := ReadString(data, flags, FNAME, extra.next);
    if name.Some? {
      ReadStringMeaning(data, flags, FCOMMENT, name.value.next);
    }
  }

  /** `parse_gzip_header` on the file's bytes. */
  function ParseGzipHeader(file: seq<byte>): (r: Option<GzipHeader>)
    ensures |file| < GZIP_FIXED_SIZE || file[..2] != GZIP_MAGIC || file[2] != GZIP_DEFLATE ==> r.None?
    ensures r.Some? ==> r.value.flags == file[3] && r.value.mtime == FromLE(file[4..8]) && r.value.os == file[9]
    ensures r.Some? ==> Writable(r.value)
    ensures r.Some? ==> (r.value.extra.Some? <==> HasBit(file[3], FEXTRA))
    ensures r.Some? ==> (r.value.fname.Some? <==> HasBit(file[3], FNAME))
    ensures r.Some? ==> (r.value.fcomment.Some? <==> HasBit(file[3], FCOMMENT))
    ensures (|file| >= GZIP_FIXED_SIZE && file[..2] == GZIP_MAGIC && file[2] == GZIP_DEFLATE
             && !HasBit(file[3], FNAME) && !HasBit(file[3], FCOMMENT)) ==> r.Some?
  {
    var data := Prefix(file, GZIP_READ_SIZE);
    if |data| < GZIP_FIXED_SIZE || data[..2] != GZIP_MAGIC then None
    else if data[2] != GZIP_DEFLATE then None
    else
      assert data[..10] == file[..10];
      assert data[4..8] == file[4..8];
      Pow256Values();
      ParseOptional(data, data[3], FromLE(data[4..8]), data[9])
  }

  /** A name flagged in the header with no NUL anywhere after the fixed ten bytes of the
      256-byte window is rejected. */
  lemma UnterminatedName(file: seq<byte>)
    requires |file| >= GZIP_FIXED_SIZE && HasBit(file[3], FNAME) && !HasBit(file[3], FEXTRA)
    requires forall i :: GZIP_FIXED_SIZE <= i < |file| && i < GZIP_READ_SIZE ==> file[i] != 0
    ensures ParseGzipHeader(file) == None
  {
    var data := Prefix(file, GZIP_READ_SIZE);
    assert forall i :: 10 <= i < |data| ==> data[i] == file[i];
  }

  /** Bytes 0..9 as `patch_gzip_header` rewrites them in its bytearray copy: flags, mtime,
      XFL = 0 and OS; the magic and method bytes are kept. */
  function PatchFixed(data: seq<byte>, header: GzipHeader): (r: seq<byte>)
    requires |data| >= GZIP_FIXED_SIZE && 0 <= header.mtime < 0x1_0000_0000
    ensures |r| == |data| && r[..3] == data[..3] && r[10..] == data[10..]
    ensures r[3] == header.flags % 256 && r[4..8] == ToLE(header.mtime, 4)
    ensures r[8] == 0 && r[9] == header.os % 256
  {
    Pow256Values();
    data[..3] + [header.flags % 256] + ToLE(header.mtime, 4) + [0, header.os % 256] + data[10..]
  }

  /** The bytearray being spliced and the `pos` cursor of `patch_gzip_header`. */
  datatype Cursor = Cursor(bytes: seq<byte>, pos: nat)

  /** The FEXTRA step: write XLEN and the extra bytes over the two bytes at `pos`, or
      drop an existing extra field; `pos` only moves when an extra field is written. */
  function SpliceExtra(c: Cursor, header: GzipHeader): (r: Cursor)
    requires c.pos == GZIP_FIXED_SIZE <= |c.bytes| && Writable(header)
    ensures GZIP_FIXED_SIZE <= r.pos <= |r.bytes| && r.bytes[..GZIP_FIXED_SIZE] == c.bytes[..GZIP_FIXED_SIZE]
  {
    if !HasBit(header.flags, FEXTRA) then c
    else if header.extra.Some? then
      var extra := header.extra.value;
      Pow256Values();
      Cursor(c.bytes[..c.pos] + ToLE(|extra|, 2) + extra + Suffix(c.bytes, c.pos + 2), c.pos + 2 + |extra|)
    else
      var extraLen := FromLE(Sub(c.bytes, c.pos, c.pos + 2));
      Cursor(c.bytes[..c.pos] + Suffix(c.bytes, c.pos + 2 + extraLen), c.pos)
  }

  /** The FNAME step: insert the name and its NUL at `pos`, or cut everything from `pos`
      through the next NUL and move `pos` to the end. */
  function SpliceName(c: Cursor, header: GzipHeader): (r: Cursor)
    requires GZIP_FIXED_SIZE <= c.pos <= |c.bytes|
    ensures GZIP_FIXED_SIZE <= r.pos <= |r.bytes| && r.bytes[..GZIP_FIXED_SIZE] == c.bytes[..GZIP_FIXED_SIZE]
  {
    if !HasBit(header.flags, FNAME) then c
    else if header.fname.Some? then
      var name := header.fname.value + [0];
      Cursor(c.bytes[..c.pos] + name + c.bytes[c.pos..], c.pos + |name|)
    else
      var end := FindFrom(c.bytes, 0, c.pos);
      if end == -1 then c
      else
        var cut := c.bytes[..c.pos] + c.bytes[end + 1..];
        Cursor(cut, |cut|)
  }

  /** The FCOMMENT step: the same as the name step, without moving a cursor afterwards. */
  function SpliceComment(c: Cursor, header: GzipHeader): (r: seq<byte>)
    requires GZIP_FIXED_SIZE <= c.pos <= |c.bytes|
    ensures |r| >= GZIP_FIXED_SIZE && r[..GZIP_FIXED_SIZE] == c.bytes[..GZIP_FIXED_SIZE]
  {
    if !HasBit(header.flags, FCOMMENT) then c.bytes
    else if header.fcomment.Some? then
      c.bytes[..c.pos] + header.fcomment.value + [0] + c.bytes[c.pos..]
    else
      var end := FindFrom(c.bytes, 0, c.pos);
      if end == -1 then c.bytes
      else c.bytes[..c.pos] + c.bytes[end + 1..]
  }

  /** What `patch_gzip_header` returns. Whatever the optional fields do, the fixed part of
      the header carries the given flags, mtime and OS, XFL 0, and the original magic and method. */
  function GzipPatched(data: seq<byte>, header: GzipHeader): (r: seq<byte>)
    requires |data| >= GZIP_FIXED_SIZE ==> Writable(header)
    ensures |data| < GZIP_FIXED_SIZE ==> r == data
    ensures |data| >= GZIP_FIXED_SIZE ==> |r| >= GZIP_FIXED_SIZE && r[..3] == data[..3]
    ensures |data| >= GZIP_FIXED_SIZE ==> r[3] == header.flags % 256 && r[4..8] == ToLE(header.mtime, 4)
    ensures |data| >= GZIP_FIXED_SIZE ==> r[8] == 0 && r[9] == header.os % 256
  {
    if |data| < GZIP_FIXED_SIZE then data
    else
      var fixed := PatchFixed(data, header);
      var r := SpliceComment(SpliceName(SpliceExtra(Cursor(fixed, GZIP_FIXED_SIZE), header), header), header);
      assert r[..10][..3] == r[..3] && fixed[..10][..3] == fixed[..3];
      assert r[..10][4..8] == r[4..8] && fixed[..10][4..8] == fixed[4..8];
      r
  }

  /** The in-place assignments to bytes 3..9 at the start of `patch_gzip_header`. */
  method WriteFixedFields(data: seq<byte>, header: GzipHeader) returns (out: seq<byte>)
    requires |data| >= GZIP_FIXED_SIZE && 0 <= header.mtime < 0x1_0000_0000
    ensures out == PatchFixed(data, header)
  {
    var fixed := new byte[|data|](i requires 0 <= i < |data| => data[i]);
    fixed[3] := header.flags % 256;
    Pow256Values();
    var mtime := ToLE(header.mtime, 4);
    fixed[4], fixed[5], fixed[6], fixed[7] := mtime[0], mtime[1], mtime[2], mtime[3];
    fixed[8] := 0;
    fixed[9] := header.os % 256;
    out := fixed[..];
    assert out == PatchFixed(data, header);
  }

  /** The FEXTRA block of `patch_gzip_header`. */
  method ExtraStep(patched: seq<byte>, header: GzipHeader) returns (out: seq<byte>, pos: nat)
    requires GZIP_FIXED_SIZE <= |patched| && Writable(header)
    ensures Cursor(out, pos) == SpliceExtra(Cursor(patched, GZIP_FIXED_SIZE), header)
  {
    out, pos := patched, GZIP_FIXED_SIZE;
    if HasBit(header.flags, FEXTRA) {
      if header.extra.Some? {
        var extraLen := |header.extra.value|;
        Pow256Values();
        out := out[..pos] + ToLE(extraLen, 2) + header.extra.value + Suffix(out, pos + 2);
        pos := pos + 2 + extraLen;
      } else {
        var extraLen := FromLE(Sub(out, pos, pos + 2));
        out := out[..pos] + Suffix(out, pos + 2 + extraLen);
      }
    }
  }

  /** The FNAME block of `patch_gzip_header`. */
  method NameStep(patched: seq<byte>, pos: nat, header: GzipHeader) returns (out: seq<byte>, pos': nat)
    requires GZIP_FIXED_SIZE <= pos <= |patched|
    ensures Cursor(out, pos') == SpliceName(Cursor(patched, pos), header)
  {
    out, pos' := patched, pos;
    if HasBit(header.flags, FNAME) {
      if header.fname.Some? {
        var nameBytes := header.fname.value + [0];
        out := out[..pos] + nameBytes + out[pos..];
        pos' := pos + |nameBytes|;
      } else {
        var end := FindFrom(out, 0, pos);
        if end != -1 {
          out := out[..pos] + out[end + 1..];
          pos' := |out|;
        }
      }
    }
  }

  /** The FCOMMENT block of `patch_gzip_header`. */
  method CommentStep(patched: seq<byte>, pos: nat, header: GzipHeader) returns (out: seq<byte>)
    requires GZIP_FIXED_SIZE <= pos <= |patched|
    ensures out == SpliceComment(Cursor(patched, pos), header)
  {
    out := patched;
    if HasBit(header.flags, FCOMMENT) {
      if header.fcomment.Some? {
        var commentBytes := header.fcomment.value + [0];
        out := out[..pos] + commentBytes + out[pos..];
      } else {
        var end := FindFrom(out, 0, pos);
        if end != -1 {
          out := out[..pos] + out[end + 1..];
        }
      }
    }
  }

  /** `patch_gzip_header`: overwrite bytes 3..9 of a bytearray copy, then splice the
      optional fields in with a moving cursor. */
  method PatchGzipHeader(data: seq<byte>, header: GzipHeader) returns (out: seq<byte>)
    requires |data| >= GZIP_FIXED_SIZE ==> Writable(header)
    ensures out == GzipPatched(data, header)
  {
    if |data| < GZIP_FIXED_SIZE {
      return data;
    }
    var patched := WriteFixedFields(data, header);
    var pos;
    patched, pos := ExtraStep(patched, header);
    patched, pos := NameStep(patched, pos, header);
    out := CommentStep(patched, pos, header);
  }

  /** Every flagged optional field is given; the layout the patch then produces is fixed. */
  predicate FieldsGiven(header: GzipHeader) {
    Writable(header)
    && (HasBit(header.flags, FEXTRA) ==> header.extra.Some?)
    && (HasBit(header.flags, FNAME) ==> header.fname.Some?)
    && (HasBit(header.flags, FCOMMENT) ==> header.fcomment.Some?)
  }

  /** XLEN and the extra field, when FEXTRA is set and the field is given. */
  function ExtraBytes(header: GzipHeader): (r: seq<byte>)
    requires FieldsGiven(header)
    ensures HasBit(header.flags, FEXTRA) ==> |r| == 2 + |header.extra.value|
  {
    Pow256Values();
    if HasBit(header.flags, FEXTRA) then ToLE(|header.extra.value|, 2) + header.extra.value else []
  }

  /** The name and its terminating NUL, when FNAME is set. */
  function NameBytes(header: GzipHeader): seq<byte>
    requires HasBit(header.flags, FNAME) ==> header.fname.Some?
  {
    if HasBit(header.flags, FNAME) then header.fname.value + [0] else []
  }

  /** The comment and its terminating NUL, when FCOMMENT is set. */
  function CommentBytes(header: GzipHeader): seq<byte>
    requires HasBit(header.flags, FCOMMENT) ==> header.fcomment.Some?
  {
    if HasBit(header.flags, FCOMMENT) then header.fcomment.value + [0] else []
  }

  /** The bytes between the fixed part and the rest of the stream that a header with all
      its flagged fields given asks for, in RFC 1952 order. */
  function OptionalBytes(header: GzipHeader): seq<byte>
    requires FieldsGiven(header)
  {
    ExtraBytes(header) + NameBytes(header) + CommentBytes(header)
  }

  /** What is left of the original stream after the fixed part: the extra step overwrites bytes 10 and 11. */
  function Remainder(data: seq<byte>, header: GzipHeader): seq<byte>
    requires |data| >= GZIP_FIXED_SIZE
  {
    if HasBit(header.flags, FEXTRA) then Suffix(data, 12) else data[GZIP_FIXED_SIZE..]
  }

  lemma ExtraLayout(data: seq<byte>, header: GzipHeader)
    requires |data| >= GZIP_FIXED_SIZE && FieldsGiven(header)
    ensures var fixed := PatchFixed(data, header);
      SpliceExtra(Cursor(fixed, GZIP_FIXED_SIZE), header)
        == Cursor(fixed[..GZIP_FIXED_SIZE] + ExtraBytes(header) + Remainder(data, header), GZIP_FIXED_SIZE + |ExtraBytes(header)|)
  {
    Pow256Values();
    var fixed := PatchFixed(data, header);
    assert Suffix(fixed, 12) == Suffix(data, 12) by {
      if |data| >= 12 {
        assert fixed[12..] == fixed[10..][2..] == data[10..][2..] == data[12..];
      }
    }
  }

  /** Splicing a given name or comment in at the cursor leaves what lies on either side. */
  lemma InsertAt(before: seq<byte>, field: seq<byte>, after: seq<byte>)
    ensures (before + after)[..|before|] + field + (before + after)[|before|..] == before + field + after
  {
    assert (before + after)[..|before|] == before && (before + after)[|before|..] == after;
  }

  lemma NameLayout(before: seq<byte>, after: seq<byte>, header: GzipHeader)
    requires |before| >= GZIP_FIXED_SIZE && (HasBit(header.flags, FNAME) ==> header.fname.Some?)
    ensures SpliceName(Cursor(before + after, |before|), header) == Cursor(before + NameBytes(header) + after, |before| + |NameBytes(header)|)
  {
    if HasBit(header.flags, FNAME) {
      InsertAt(before, NameBytes(header), after);
    }
  }

  lemma CommentLayout(before: seq<byte>, after: seq<byte>, header: GzipHeader)
    requires |before| >= GZIP_FIXED_SIZE && (HasBit(header.flags, FCOMMENT) ==> header.fcomment.Some?)
    ensures SpliceComment(Cursor(before + after, |before|), header) == before + CommentBytes(header) + after
  {
    if HasBit(header.flags, FCOMMENT) {
      InsertAt(before, CommentBytes(header), after);
      assert (before + after)[..|before|] + header.fcomment.value + [0] + (before + after)[|before|..]
        == (before + after)[..|before|] + CommentBytes(header) + (before + after)[|before|..];
    }
  }

  /** With every flagged field given, the patched stream is the rewritten fixed part, the
      optional fields in RFC 1952 order, and the original stream after the fixed part, of
      which the two bytes at 10 and 11 are overwritten when an extra field is written. */
  lemma PatchLayout(data: seq<byte>, header: GzipHeader)
    requires |data| >= GZIP_FIXED_SIZE && FieldsGiven(header)
    ensures GzipPatched(data, header) == PatchFixed(data, header)[..GZIP_FIXED_SIZE] + OptionalBytes(header) + Remainder(data, header)
  {
    var head := PatchFixed(data, header)[..GZIP_FIXED_SIZE];
    var rest := Remainder(data, header);
    var x, n, c := ExtraBytes(header), NameBytes(header), CommentBytes(header);
    ExtraLayout(data, header);
    var c1 := SpliceExtra(Cursor(PatchFixed(data, header), GZIP_FIXED_SIZE), header);
    assert c1 == Cursor((head + x) + rest, |head + x|);
    NameLayout(head + x, rest, header);
    var c2 := SpliceName(c1, header);
    assert c2 == Cursor((head + x + n) + rest, |head + x + n|);
    CommentLayout(head + x + n, rest, header);
    PatchedStages(data, header);
    assert GzipPatched(data, header) == head + x + n + c + rest;
    Regroup(head, x, n, c, rest);
  }

  lemma Regroup(head: seq<byte>, x: seq<byte>, n: seq<byte>, c: seq<byte>, rest: seq<byte>)
    ensures head + (x + n + c) + rest == head + x + n + c + rest
  {
  }

  lemma PatchedStages(data: seq<byte>, header: GzipHeader)
    requires |data| >= GZIP_FIXED_SIZE && Writable(header)
    ensures GzipPatched(data, header)
      == SpliceComment(SpliceName(SpliceExtra(Cursor(PatchFixed(data, header), GZIP_FIXED_SIZE), header), header), header)
  {
  }

  /** A header `parse_gzip_header` could have returned: byte-sized flags and OS, a
      four-byte mtime, exactly the flagged fields present and names without NUL. */
  predicate Canonical(header: GzipHeader) {
    FieldsGiven(header)
    && 0 <= header.flags < 256 && 0 <= header.os < 256
    && (header.extra.Some? ==> HasBit(header.flags, FEXTRA))
    && (header.fname.Some? ==> HasBit(header.flags, FNAME))
    && (header.fcomment.Some? ==> HasBit(header.flags, FCOMMENT))
    && (header.fname.Some? ==> 0 !in header.fname.value)
    && (header.fcomment.Some? ==> 0 !in header.fcomment.value)
  }

  /** A field with no zero byte, followed by a zero, reads back. */
  lemma {:induction false} ReadField(data: seq<byte>, pos: nat, field: seq<byte>)
    requires At(data, pos, field) && pos + |field| < |data| && data[pos + |field|] == 0 && 0 !in field
    ensures ReadZeroTerminated(data, pos) == Some(Field(field, pos + |field| + 1))
    decreases |field|
  {
    if field != [] {
      assert field[0] in field;
      assert 0 !in field[1..] by {
        forall i | 0 <= i < |field[1..]| ensures field[1..][i] != 0 {
          assert field[1..][i] == field[i + 1] && field[i + 1] in field;
        }
      }
      ReadField(data, pos + 1, field[1..]);
      assert [data[pos]] + field[1..] == field;
    }
  }

  /** `b` lies in `data` from `pos` on, stated byte by byte. */
  predicate At(data: seq<byte>, pos: nat, b: seq<byte>)
    decreases |b|
  {
    pos + |b| <= |data| && (b == [] || (data[pos] == b[0] && At(data, pos + 1, b[1..])))
  }

  lemma {:induction false} AtSlice(data: seq<byte>, pos: nat, b: seq<byte>)
    requires At(data, pos, b)
    ensures data[pos..pos + |b|] == b
    decreases |b|
  {
    if b != [] {
      AtSlice(data, pos + 1, b[1..]);
      assert data[pos..pos + |b|] == [data[pos]] + data[pos + 1..pos + 1 + |b[1..]|];
      assert b == [b[0]] + b[1..];
    }
  }

  /** Bytes `a + b` at `pos` are `a` at `pos`, then `b`. */
  lemma {:induction false} AtSplit(data: seq<byte>, pos: nat, a: seq<byte>, b: seq<byte>)
    requires At(data, pos, a + b)
    ensures At(data, pos, a) && At(data, pos + |a|, b)
    decreases |a|
  {
    if a == [] {
      assert a + b == b;
    } else {
      assert (a + b)[0] == a[0] && (a + b)[1..] == a[1..] + b;
      AtSplit(data, pos + 1, a[1..], b);
    }
  }

  /** The middle of a concatenation lies where its prefix ends. */
  lemma {:induction false} AtMiddle(p: seq<byte>, b: seq<byte>, q: seq<byte>)
    ensures At(p + b + q, |p|, b)
    decreases |b|
  {
    if b != [] {
      assert p + b + q == (p + [b[0]]) + b[1..] + q;
      assert (p + b + q)[|p|] == b[0];
      AtMiddle(p + [b[0]], b[1..], q);
    }
  }

  lemma {:induction false} ReadExtraRoundTrip(data: seq<byte>, flags: int, extra: Option<seq<byte>>, x: seq<byte>)
    requires extra.Some? <==> HasBit(flags, FEXTRA)
    requires extra.Some? ==> |extra.value| < 0x1_0000 && x == ToLE(|extra.value|, 2) + extra.value
    requires extra.None? ==> x == []
    requires At(data, GZIP_FIXED_SIZE, x)
    ensures ReadExtra(data, flags) == Read(extra, GZIP_FIXED_SIZE + |x|)
  {
    if extra.Some? {
      Pow256Values();
      var e := extra.value;
      AtSlice(data, GZIP_FIXED_SIZE, x);
      assert Sub(data, 10, 12) == x[..2] == ToLE(|e|, 2);
      FromToLE(|e|, 2);
      assert Sub(data, 12, 12 + |e|) == x[2..] == e;
    }
  }

  lemma {:induction false} ReadStringRoundTrip(data: seq<byte>, flags: int, mask: nat, value: Option<seq<byte>>, b: seq<byte>, pos: nat)
    requires mask > 0 && (value.Some? <==> HasBit(flags, mask)) && (value.Some? ==> 0 !in value.value)
    requires b == if value.Some? then value.value + [0] else []
    requires At(data, pos, b)
    ensures ReadString(data, flags, mask, pos) == Some(Read(value, pos + |b|))
  {
    if value.Some? {
      var v := value.value;
      AtSplit(data, pos, v, [0]);
      assert data[pos + |v|] == 0;
      ReadField(data, pos, v);
    }
  }

  /** The optional fields a header asks for, found right after the fixed part, read back as
      the header's. */
  lemma {:induction false} ParseOptionalRoundTrip(data: seq<byte>, header: GzipHeader)
    requires Canonical(header) && At(data, GZIP_FIXED_SIZE, OptionalBytes(header))
    ensures ParseOptional(data, header.flags, header.mtime, header.os) == Some(header)
  {
    var x, n, c := ExtraBytes(header), NameBytes(header), CommentBytes(header);
    AtSplit(data, 10, x + n, c);
    AtSplit(data, 10, x, n);
    ParseBack(data, header);
    ParseOptionalStages(data, header.flags, header.mtime, header.os,
      header.extra, header.fname, header.fcomment, 10 + |x|, 10 + |x| + |n|, 10 + |x| + |n| + |c|);
    assert GzipHeader(header.mtime, header.os, header.flags, header.extra, header.fname, header.fcomment) == header;
  }

  /** Each optional field written after the fixed part reads back where the previous one ends. */
  lemma {:induction false} ParseBack(data: seq<byte>, header: GzipHeader)
    requires Canonical(header)
    requires At(data, 10, ExtraBytes(header)) && At(data, 10 + |ExtraBytes(header)|, NameBytes(header))
    requires At(data, 10 + |ExtraBytes(header)| + |NameBytes(header)|, CommentBytes(header))
    ensures var x, n := ExtraBytes(header), NameBytes(header);
      ReadExtra(data, header.flags) == Read(header.extra, 10 + |x|)
      && ReadString(data, header.flags, FNAME, 10 + |x|) == Some(Read(header.fname, 10 + |x| + |n|))
      && ReadString(data, header.flags, FCOMMENT, 10 + |x| + |n|)
           == Some(Read(header.fcomment, 10 + |x| + |n| + |CommentBytes(header)|))
  {
    Pow256Values();
    var x, n, c := ExtraBytes(header), NameBytes(header), CommentBytes(header);
    ReadExtraRoundTrip(data, header.flags, header.extra, x);
    ReadStringRoundTrip(data, header.flags, FNAME, header.fname, n, 10 + |x|);
    ReadStringRoundTrip(data, header.flags, FCOMMENT, header.fcomment, c, 10 + |x| + |n|);
  }

  lemma ParseOptionalStages(data: seq<byte>, flags: byte, mtime: int, os: byte,
                            extra: Option<seq<byte>>, name: Option<seq<byte>>, comment: Option<seq<byte>>,
                            afterExtra: nat, afterName: nat, afterComment: nat)
    requires ReadExtra(data, flags) == Read(extra, afterExtra)
    requires ReadString(data, flags, FNAME, afterExtra) == Some(Read(name, afterName))
    requires ReadString(data, flags, FCOMMENT, afterName) == Some(Read(comment, afterComment))
    ensures ParseOptional(data, flags, mtime, os) == Some(GzipHeader(mtime, os, flags, extra, name, comment))
  {
  }

  /** Patching any stream that starts with the gzip magic and method with a header the
      parser could have produced, whose fields fit the 256-byte window, parses back to that
      header. */
  lemma {:induction false} PatchThenParse(data: seq<byte>, header: GzipHeader)
    requires |data| >= GZIP_FIXED_SIZE && data[..3] == [0x1F, 0x8B, GZIP_DEFLATE]
    requires Canonical(header) && GZIP_FIXED_SIZE + |OptionalBytes(header)| <= GZIP_READ_SIZE
    ensures ParseGzipHeader(GzipPatched(data, header)) == Some(header)
  {
    PatchedWindow(data, header);
    ParseOptionalRoundTrip(Prefix(GzipPatched(data, header), GZIP_READ_SIZE), header);
  }

  /** The 256 bytes the parser reads from a patched stream hold the magic, the method, the
      header's flags, mtime and OS, and then its optional fields. */
  lemma PatchedWindow(data: seq<byte>, header: GzipHeader)
    requires |data| >= GZIP_FIXED_SIZE && data[..3] == [0x1F, 0x8B, GZIP_DEFLATE]
    requires Canonical(header) && GZIP_FIXED_SIZE + |OptionalBytes(header)| <= GZIP_READ_SIZE
    ensures var w := Prefix(GzipPatched(data, header), GZIP_READ_SIZE);
      |w| >= GZIP_FIXED_SIZE && w[..2] == GZIP_MAGIC && w[2] == GZIP_DEFLATE
      && w[3] == header.flags && FromLE(w[4..8]) == header.mtime && w[9] == header.os
      && At(w, GZIP_FIXED_SIZE, OptionalBytes(header))
  {
    PatchLayout(data, header);
    PatchedHead(data, header);
    WindowKeepsHead(PatchFixed(data, header)[..GZIP_FIXED_SIZE], OptionalBytes(header), Remainder(data, header), GZIP_READ_SIZE);
  }

  /** A window long enough to cover the fixed part and the optional fields keeps both. */
  lemma WindowKeepsHead(head: seq<byte>, o: seq<byte>, rest: seq<byte>, n: nat)
    requires |head| == GZIP_FIXED_SIZE && GZIP_FIXED_SIZE + |o| <= n
    ensures var w := Prefix(head + o + rest, n);
      |w| >= GZIP_FIXED_SIZE && w[..2] == head[..2] && w[2] == head[2] && w[3] == head[3]
      && w[4..8] == head[4..8] && w[9] == head[9] && At(w, GZIP_FIXED_SIZE, o)
  {
    var tail := Prefix(rest, n - GZIP_FIXED_SIZE - |o|);
    PrefixPast(head + o, rest, n);
    assert head + o + tail == head + (o + tail);
    HeadOf(head, o + tail);
    AtMiddle(head, o, tail);
  }

  /** The fixed ten bytes the patch writes carry the magic, the method and the header's
      flags, mtime and OS. */
  lemma PatchedHead(data: seq<byte>, header: GzipHeader)
    requires |data| >= GZIP_FIXED_SIZE && data[..3] == [0x1F, 0x8B, GZIP_DEFLATE] && Canonical(header)
    ensures var head := PatchFixed(data, header)[..GZIP_FIXED_SIZE];
      |head| == GZIP_FIXED_SIZE && head[..2] == GZIP_MAGIC && head[2] == GZIP_DEFLATE
      && head[3] == header.flags && head[9] == header.os && FromLE(head[4..8]) == header.mtime
  {
    var fixed := PatchFixed(data, header);
    assert fixed[..10][..3] == fixed[..3] == data[..3];
    assert fixed[..10][4..8] == fixed[4..8] == ToLE(header.mtime, 4);
    Pow256Values();
    FromToLE(header.mtime, 4);
  }

  /** Bytes added after the fixed part do not change what the parser reads from it. */
  lemma HeadOf(head: seq<byte>, more: seq<byte>)
    requires |head| == GZIP_FIXED_SIZE
    ensures (head + more)[..2] == head[..2] && (head + more)[2] == head[2] && (head + more)[3] == head[3]
    ensures (head + more)[4..8] == head[4..8] && (head + more)[9] == head[9]
  {
  }

  /** Cutting a window no shorter than `a` off `a + b` keeps all of `a`. */
  lemma PrefixPast(a: seq<byte>, b: seq<byte>, n: int)
    requires |a| <= n
    ensures Prefix(a + b, n) == a + Prefix(b, n - |a|)
  {
    if n <= |a + b| {
      assert (a + b)[..n] == a + b[..n - |a|];
    }
  }

  /** A header without optional fields only rewrites the fixed ten bytes. */
  lemma PatchWithoutOptionalFields(data: seq<byte>, header: GzipHeader)
    requires |data| >= GZIP_FIXED_SIZE && Writable(header)
    requires !HasBit(header.flags, FEXTRA) && !HasBit(header.flags, FNAME) && !HasBit(header.flags, FCOMMENT)
    ensures |GzipPatched(data, header)| == |data|
    ensures GzipPatched(data, header)[GZIP_FIXED_SIZE..] == data[GZIP_FIXED_SIZE..]
  {
    PatchLayout(data, header);
  }

  /** With only FNAME set and a name given, the name and a NUL are inserted after the fixed
      ten bytes, so the stream grows by the name's length plus one. */
  lemma PatchNameOnly(data: seq<byte>, header: GzipHeader)
    requires |data| >= GZIP_FIXED_SIZE && Writable(header)
    requires !HasBit(header.flags, FEXTRA) && HasBit(header.flags, FNAME) && !HasBit(header.flags, FCOMMENT)
    requires header.fname.Some?
    ensures GzipPatched(data, header) == PatchFixed(data, header)[..GZIP_FIXED_SIZE] + header.fname.value + [0] + data[GZIP_FIXED_SIZE..]
    ensures |GzipPatched(data, header)| == |data| + |header.fname.value| + 1
  {
    PatchLayout(data, header);
  }

  /** The eight flag bits in the order `format_gzip_header` tests them, and their names. */
  const GZIP_FLAG_BITS: seq<nat> := [1, 2, 4, 8, 16, 32, 64, 128]
  const GZIP_FLAG_NAMES: seq<string> := ["FTEXT", "FHCRC", "FEXTRA", "FNAME", "FCOMMENT", "RESERVED1", "RESERVED2", "RESERVED3"]

  /** The names of the set bits among the first `count` flag bits, lowest bit first. */
  function SetFlagNames(flags: int, count: nat): (r: seq<string>)
    requires count <= |GZIP_FLAG_BITS|
    ensures |r| <= count
  {
    if count == 0 then []
    else
      SetFlagNames(flags, count - 1)
      + (if HasBit(flags, GZIP_FLAG_BITS[count - 1]) then [GZIP_FLAG_NAMES[count - 1]] else [])
  }

  /** The listed names are flag names, and the list is empty exactly when none of the
      tested bits is set. */
  lemma {:induction false} SetFlagNamesMeaning(flags: int, count: nat)
    requires count <= |GZIP_FLAG_BITS|
    ensures SetFlagNames(flags, count) == [] <==> forall k :: 0 <= k < count ==> !HasBit(flags, GZIP_FLAG_BITS[k])
    ensures forall name :: name in SetFlagNames(flags, count) ==> name in GZIP_FLAG_NAMES
  {
    if count > 0 {
      SetFlagNamesMeaning(flags, count - 1);
    }
  }

  /** The `flag_names` list of `format_gzip_header`: one test per bit, appending its name
      (GZIP_FLAG_NAMES[k] is the literal name of the k-th bit). */
  method FormatFlagNames(flags: int) returns (names: seq<string>)
    ensures names == SetFlagNames(flags, 8)
  {
    names := [];
    if HasBit(flags, 1) { names := names + [GZIP_FLAG_NAMES[0]]; }
    assert names == SetFlagNames(flags, 1);
    if HasBit(flags, 2) { names := names + [GZIP_FLAG_NAMES[1]]; }
    assert names == SetFlagNames(flags, 2);
    if HasBit(flags, 4) { names := names + [GZIP_FLAG_NAMES[2]]; }
    assert names == SetFlagNames(flags, 3);
    if HasBit(flags, 8) { names := names + [GZIP_FLAG_NAMES[3]]; }
    assert names == SetFlagNames(flags, 4);
    if HasBit(flags, 16) { names := names + [GZIP_FLAG_NAMES[4]]; }
    assert names == SetFlagNames(flags, 5);
    if HasBit(flags, 32) { names := names + [GZIP_FLAG_NAMES[5]]; }
    assert names == SetFlagNames(flags, 6);
    if HasBit(flags, 64) { names := names + [GZIP_FLAG_NAMES[6]]; }
    assert names == SetFlagNames(flags, 7);
    if HasBit(flags, 128) { names := names + [GZIP_FLAG_NAMES[7]]; }
  }

  /** The text after "flag_names: ": the names joined with ", ", or "(none)". */
  function FlagNamesText(flags: int): (r: string) {
    var names := SetFlagNames(flags, 8);
    if names == [] then "(none)" else Join(names, ", ")
  }

  /** A byte is zero exactly when none of its eight bits is set. */
  lemma ByteWithoutBits(m: int)
    requires 0 <= m < 256
    ensures m == 0 <==> forall k :: 0 <= k < 8 ==> !HasBit(m, GZIP_FLAG_BITS[k])
  {
    if forall k :: 0 <= k < 8 ==> !HasBit(m, GZIP_FLAG_BITS[k]) {
      assert !HasBit(m, GZIP_FLAG_BITS[7]);
      assert m < 128;
      assert !HasBit(m, GZIP_FLAG_BITS[6]);
      assert m < 64;
      assert !HasBit(m, GZIP_FLAG_BITS[5]);
      assert m < 32;
      assert !HasBit(m, GZIP_FLAG_BITS[4]);
      assert m < 16;
      assert !HasBit(m, GZIP_FLAG_BITS[3]);
      assert m < 8;
      assert !HasBit(m, GZIP_FLAG_BITS[2]);
      assert m < 4;
      assert !HasBit(m, GZIP_FLAG_BITS[1]);
      assert m < 2;
      assert !HasBit(m, GZIP_FLAG_BITS[0]);
    }
  }

  /** A flags byte lists no names, and its text is "(none)", exactly when it is zero. */
  lemma {:induction false} NoFlagNames(flags: int)
    requires 0 <= flags < 256
    ensures SetFlagNames(flags, 8) == [] <==> flags == 0
    ensures FlagNamesText(flags) == "(none)" <==> flags == 0
  {
    ByteWithoutBits(flags);
    SetFlagNamesMeaning(flags, 8);
    var names := SetFlagNames(flags, 8);
    if names != [] {
      assert names[0] in GZIP_FLAG_NAMES;
      JoinHead(names, ", ");
      assert Join(names, ", ")[0] != '(';
    }
  }

  /** A header with only FNAME set lists just that name. */
  lemma FnameOnlyFlagNames()
    ensures SetFlagNames(FNAME, 8) == ["FNAME"]
  {
    assert SetFlagNames(FNAME, 3) == [];
  }

  /** One `gzip`/`pigz` run of the brute-force grid. */
  datatype GzipParams = GzipParams(tool: string, level: int, noName: bool, rsyncable: bool)

  const GZIP_LEVELS: seq<int> := [1, 6, 9]
  const GZIP_NO_NAME_OPTIONS: seq<bool> := [true, false]

  /** `[False, True] if tool == "gzip" else [False]`: only gzip is tried with --rsyncable. */
  function RsyncOptions(tool: string): seq<bool> {
    if tool == "gzip" then [false, true] else [false]
  }

  /** `for rsyncable in options` at one tool, level and -n choice. */
  function RsyncRow(tool: string, level: int, noName: bool, options: seq<bool>): (r: seq<GzipParams>)
    ensures |r| == |options|
    ensures forall i :: 0 <= i < |r| ==> r[i] == GzipParams(tool, level, noName, options[i])
  {
    seq(|options|, i requires 0 <= i < |options| => GzipParams(tool, level, noName, options[i]))
  }

  /** `for no_name in no_names: for rsyncable in options` at one tool and level. */
  function NameBlock(tool: string, level: int, noNames: seq<bool>, options: seq<bool>): seq<GzipParams>
    decreases |noNames|
  {
    if noNames == [] then []
    else NameBlock(tool, level, noNames[..|noNames| - 1], options) + RsyncRow(tool, level, noNames[|noNames| - 1], options)
  }

  /** `for level in levels: ...` for one tool. */
  function LevelBlock(tool: string, levels: seq<int>, noNames: seq<bool>, options: seq<bool>): seq<GzipParams>
    decreases |levels|
  {
    if levels == [] then []
    else LevelBlock(tool, levels[..|levels| - 1], noNames, options) + NameBlock(tool, levels[|levels| - 1], noNames, options)
  }

  /** `for tool in tools: ...`: the whole grid in the order it is tried. */
  function GzipGrid(tools: seq<string>, levels: seq<int>, noNames: seq<bool>): seq<GzipParams>
    decreases |tools|
  {
    if tools == [] then []
    else
      var tool := tools[|tools| - 1];
      GzipGrid(tools[..|tools| - 1], levels, noNames) + LevelBlock(tool, levels, noNames, RsyncOptions(tool))
  }

  /** `["gzip"]`, plus `"pigz"` when `pigz --version` runs. */
  function GzipTools(env: Env): seq<string> {
    ["gzip"] + (if ToolAvailable(env, ["pigz", "--version"]) then ["pigz"] else [])
  }

  /** `[tool, f"-{level}"]`, then "-n" and "--rsyncable" when chosen, then "-c"; the source
      file is the runner's input. */
  function GzipCommand(p: GzipParams): seq<string> {
    [p.tool, "-" + DecimalString(p.level)]
    + (if p.noName then ["-n"] else [])
    + (if p.rsyncable then ["--rsyncable"] else [])
    + ["-c"]
  }

  /** The candidate's label, e.g. "gzip -9 -n --rsyncable". */
  function GzipLabel(p: GzipParams): string {
    p.tool + " -" + DecimalString(p.level) + (if p.noName then " -n" else "") + (if p.rsyncable then " --rsyncable" else "")
  }

  /** The header every candidate is patched with must be one `patch_gzip_header` can write. */
  predicate UsableHeader(header: Option<GzipHeader>) {
    header.Some? ==> Writable(header.value)
  }

  /** One tool run: its output, patched when a header is given, or None when the run fails. */
  function GzipRun(raw: seq<byte>, header: Option<GzipHeader>, env: Env): GzipParams -> Option<Candidate>
    requires UsableHeader(header)
  {
    (p: GzipParams) =>
      match env.run(GzipCommand(p), raw)
      case None => None
      case Some(out) => Some(Candidate(GzipLabel(p), if header.Some? then GzipPatched(out, header.value) else out))
  }

  /** The "header_match" candidate: Python's gzip module with the header's mtime, then patched. */
  function GzipHeaderMatch(raw: seq<byte>, header: GzipHeader, env: Env): Candidate
    requires Writable(header)
  {
    Candidate("header_match", GzipPatched(env.pyGzip(raw, header.mtime), header))
  }

  /** The list `generate_gzip_candidates` returns. */
  function GzipCandidates(raw: seq<byte>, header: Option<GzipHeader>, env: Env): seq<Candidate>
    requires UsableHeader(header)
  {
    (if header.Some? then [GzipHeaderMatch(raw, header.value, env)] else [])
    + RunAll(GzipGrid(GzipTools(env), GZIP_LEVELS, GZIP_NO_NAME_OPTIONS), GzipRun(raw, header, env))
  }

  /** The innermost loop of `generate_gzip_candidates`, over the --rsyncable choices. */
  method RunRsyncRow(tool: string, level: int, noName: bool, options: seq<bool>, run: GzipParams -> Option<Candidate>)
    returns (cands: seq<Candidate>)
    ensures cands == RunAll(RsyncRow(tool, level, noName, options), run)
  {
    cands := [];
    ghost var row := RsyncRow(tool, level, noName, options);
    for ri := 0 to |options|
      invariant cands == RunAll(row[..ri], run)
    {
      var p := GzipParams(tool, level, noName, options[ri]);
      var candidate := run(p);
      if candidate.Some? {
        cands := cands + [candidate.value];
      }
      assert row[..ri + 1] == row[..ri] + [p];
      RunAllAppend(row[..ri], [p], run);
    }
    assert row[..|options|] == row;
  }

  /** The loop over the -n choices at one tool and level. */
  method RunNameBlock(tool: string, level: int, noNames: seq<bool>, options: seq<bool>, run: GzipParams -> Option<Candidate>)
    returns (cands: seq<Candidate>)
    ensures cands == RunAll(NameBlock(tool, level, noNames, options), run)
  {
    cands := [];
    for ni := 0 to |noNames|
      invariant cands == RunAll(NameBlock(tool, level, noNames[..ni], options), run)
    {
      var noName := noNames[ni];
      var row := RunRsyncRow(tool, level, noName, options, run);
      cands := cands + row;
      assert noNames[..ni + 1][..ni] == noNames[..ni];
      RunAllAppend(NameBlock(tool, level, noNames[..ni], options), RsyncRow(tool, level, noName, options), run);
    }
    assert noNames[..|noNames|] == noNames;
  }

  /** The loop over levels for one tool. */
  method RunLevelBlock(tool: string, levels: seq<int>, noNames: seq<bool>, options: seq<bool>, run: GzipParams -> Option<Candidate>)
    returns (cands: seq<Candidate>)
    ensures cands == RunAll(LevelBlock(tool, levels, noNames, options), run)
  {
    cands := [];
    for li := 0 to |levels|
      invariant cands == RunAll(LevelBlock(tool, levels[..li], noNames, options), run)
    {
      var level := levels[li];
      var block := RunNameBlock(tool, level, noNames, options, run);
      cands := cands + block;
      assert levels[..li + 1][..li] == levels[..li];
      RunAllAppend(LevelBlock(tool, levels[..li], noNames, options), NameBlock(tool, level, noNames, options), run);
    }
    assert levels[..|levels|] == levels;
  }

  /** The outermost loop of `generate_gzip_candidates`, over the tools; only gzip is also
      tried with --rsyncable. */
  method RunGzipGrid(tools: seq<string>, levels: seq<int>, noNames: seq<bool>, run: GzipParams -> Option<Candidate>)
    returns (cands: seq<Candidate>)
    ensures cands == RunAll(GzipGrid(tools, levels, noNames), run)
  {
    cands := [];
    for ti := 0 to |tools|
      invariant cands == RunAll(GzipGrid(tools[..ti], levels, noNames), run)
    {
      var tool := tools[ti];
      var options := RsyncOptions(tool);
      var block := RunLevelBlock(tool, levels, noNames, options, run);
      cands := cands + block;
      assert tools[..ti + 1][..ti] == tools[..ti];
      assert GzipGrid(tools[..ti + 1], levels, noNames) == GzipGrid(tools[..ti], levels, noNames) + LevelBlock(tool, levels, noNames, options);
      RunAllAppend(GzipGrid(tools[..ti], levels, noNames), LevelBlock(tool, levels, noNames, options), run);
    }
    assert tools[..|tools|] == tools;
    assert GzipGrid(tools[..|tools|], levels, noNames) == GzipGrid(tools, levels, noNames);
  }

  /** `generate_gzip_candidates`: the header match, then every successful run of the grid. */
  method GenerateGzipCandidates(raw: seq<byte>, header: Option<GzipHeader>, env: Env) returns (cands: seq<Candidate>)
    requires UsableHeader(header)
    ensures cands == GzipCandidates(raw, header, env)
  {
    cands := [];
    if header.Some? {
      var data := env.pyGzip(raw, header.value.mtime);
      data := PatchGzipHeader(data, header.value);
      cands := cands + [Candidate("header_match", data)];
    }
    var tools := ["gzip"];
    if ToolAvailable(env, ["pigz", "--version"]) {
      tools := tools + ["pigz"];
    }
    var runs := RunGzipGrid(tools, GZIP_LEVELS, GZIP_NO_NAME_OPTIONS, GzipRun(raw, header, env));
    cands := cands + runs;
  }

  /** At one tool and level, the -n runs come first, then the runs without it. */
  lemma {:induction false} NameBlockOrder(tool: string, level: int, options: seq<bool>)
    ensures NameBlock(tool, level, GZIP_NO_NAME_OPTIONS, options)
      == RsyncRow(tool, level, true, options) + RsyncRow(tool, level, false, options)
    ensures |NameBlock(tool, level, GZIP_NO_NAME_OPTIONS, options)| == 2 * |options|
  {
    assert GZIP_NO_NAME_OPTIONS[..1] == [true];
    assert [true][..0] == [];
  }

  /** For one tool, levels 1, 6 and 9 in that order. */
  lemma {:induction false} LevelBlockOrder(tool: string, options: seq<bool>)
    ensures LevelBlock(tool, GZIP_LEVELS, GZIP_NO_NAME_OPTIONS, options)
      == NameBlock(tool, 1, GZIP_NO_NAME_OPTIONS, options) + NameBlock(tool, 6, GZIP_NO_NAME_OPTIONS, options)
         + NameBlock(tool, 9, GZIP_NO_NAME_OPTIONS, options)
    ensures |LevelBlock(tool, GZIP_LEVELS, GZIP_NO_NAME_OPTIONS, options)| == 6 * |options|
  {
    var b1 := NameBlock(tool, 1, GZIP_NO_NAME_OPTIONS, options);
    var b6 := NameBlock(tool, 6, GZIP_NO_NAME_OPTIONS, options);
    assert LevelBlock(tool, [1], GZIP_NO_NAME_OPTIONS, options) == b1 by {
      assert [1][..0] == [];
    }
    assert LevelBlock(tool, [1, 6], GZIP_NO_NAME_OPTIONS, options) == b1 + b6 by {
      assert [1, 6][..1] == [1];
    }
    assert GZIP_LEVELS[..2] == [1, 6];
    NameBlockOrder(tool, 1, options);
    NameBlockOrder(tool, 6, options);
    NameBlockOrder(tool, 9, options);
  }

  /** The grid over a one- or two-tool list, tool by tool. */
  lemma {:induction false} GridOfTools(tools: seq<string>, levels: seq<int>, noNames: seq<bool>)
    requires 1 <= |tools| <= 2
    ensures GzipGrid(tools, levels, noNames)
      == LevelBlock(tools[0], levels, noNames, RsyncOptions(tools[0]))
         + (if |tools| == 2 then LevelBlock(tools[1], levels, noNames, RsyncOptions(tools[1])) else [])
  {
    var first := [tools[0]];
    assert first[..0] == [];
    assert GzipGrid(first, levels, noNames) == LevelBlock(tools[0], levels, noNames, RsyncOptions(tools[0]));
    if |tools| == 2 {
      assert tools[..1] == first;
    } else {
      assert tools == first;
    }
  }

  /** gzip with and without --rsyncable, then pigz (when present) without it:
      12 or 18 runs. */
  lemma GzipGridOrder(env: Env)
    ensures GzipGrid(GzipTools(env), GZIP_LEVELS, GZIP_NO_NAME_OPTIONS)
      == LevelBlock("gzip", GZIP_LEVELS, GZIP_NO_NAME_OPTIONS, [false, true])
         + (if ToolAvailable(env, ["pigz", "--version"]) then LevelBlock("pigz", GZIP_LEVELS, GZIP_NO_NAME_OPTIONS, [false]) else [])
    ensures |GzipGrid(GzipTools(env), GZIP_LEVELS, GZIP_NO_NAME_OPTIONS)| <= 18
  {
    var tools := GzipTools(env);
    GridOfTools(tools, GZIP_LEVELS, GZIP_NO_NAME_OPTIONS);
    assert RsyncOptions("gzip") == [false, true];
    LevelBlockOrder("gzip", [false, true]);
    if |tools| == 2 {
      assert RsyncOptions("pigz") == [false];
      LevelBlockOrder("pigz", [false]);
    }
  }

  /** "header_match" comes first when a header is given; at most 1 + 18 candidates. */
  lemma GzipCandidateCount(raw: seq<byte>, header: Option<GzipHeader>, env: Env)
    requires UsableHeader(header)
    ensures |GzipCandidates(raw, header, env)| <= 19
    ensures header.Some? ==> GzipCandidates(raw, header, env)[0].tag == "header_match"
  {
    GzipGridOrder(env);
  }
}
