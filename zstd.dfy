/**
 * zst.py: the frame start of a .zst stream, its patching and the zstd candidate list.
 * The code reads bytes 4..5 as one little-endian integer and applies its own masks
 * (window log in the low four bits, then 0x20, 0x10 and 0x08 as flags). The window-log
 * mask and the dictionary flag overlap at 0x08. These masks, not the published frame
 * header layout, are what is modelled.
 */
module Zstd {
  import opened Wrappers
  import opened Bytes
  import opened Slices
  import opened Text
  import opened Platform
  import opened Matching

  const ZSTD_MAGIC_NUMBER: seq<byte> := [0x28, 0xB5, 0x2F, 0xFD]
  const ZSTD_FRAME_HEADER_MIN_SIZE: nat := 6
  const ZSTD_FRAME_HEADER_SIZE: nat := 2
  const ZSTD_FRAME_HEADER_WINDOWLOG_MASK: nat := 0x0F
  const ZSTD_FRAME_HEADER_SINGLE_SEGMENT_FLAG: nat := 0x20
  const ZSTD_FRAME_HEADER_CHECKSUM_FLAG: nat := 0x10
  const ZSTD_FRAME_HEADER_DICT_ID_FLAG: nat := 0x08
  const ZSTD_MIN_LEVEL: int := 1
  const ZSTD_DEFAULT_LEVEL: int := 3
  const ZSTD_MAX_LEVEL: int := 22

  datatype ZstdHeader = ZstdHeader(windowLog: int, singleSegment: bool, hasChecksum: bool, hasDictId: bool)

  /** The header `parse_zstd_header` reads from a frame-header value. */
  function DecodeFrameHeader(frameHeader: nat): ZstdHeader {
    ZstdHeader(
      frameHeader % (ZSTD_FRAME_HEADER_WINDOWLOG_MASK + 1),
      HasBit(frameHeader, ZSTD_FRAME_HEADER_SINGLE_SEGMENT_FLAG),
      HasBit(frameHeader, ZSTD_FRAME_HEADER_CHECKSUM_FLAG),
      HasBit(frameHeader, ZSTD_FRAME_HEADER_DICT_ID_FLAG))
  }

  /** `parse_zstd_header` on the file's bytes (it reads the first six). */
  function ParseZstdHeader(file: seq<byte>): (r: Option<ZstdHeader>)
    ensures r.None? <==> |file| < ZSTD_FRAME_HEADER_MIN_SIZE || file[..4] != ZSTD_MAGIC_NUMBER
    ensures r.Some? ==> 0 <= r.value.windowLog <= 15 && r.value.windowLog == file[4] % 16
    ensures r.Some? ==> r.value.singleSegment == HasBit(file[4], 0x20)
    ensures r.Some? ==> r.value.hasChecksum == HasBit(file[4], 0x10)
    ensures r.Some? ==> r.value.hasDictId == HasBit(file[4], 0x08)
  {
    var data := Prefix(file, ZSTD_FRAME_HEADER_MIN_SIZE);
    if |data| < ZSTD_FRAME_HEADER_MIN_SIZE || !StartsWith(data, ZSTD_MAGIC_NUMBER) then None
    else
      var frameHeader := FromLE(data[4..6]);
      LE16(data[4], data[5]);
      assert data[4..6] == [data[4], data[5]];
      LowByteBits(data[4], data[5]);
      Some(DecodeFrameHeader(frameHeader))
  }

  /** The masks used here only see the low byte of the frame-header value. */
  lemma LowByteBits(lo: byte, hi: byte)
    ensures (lo + 256 * hi) % 16 == lo % 16
    ensures HasBit(lo + 256 * hi, 0x20) == HasBit(lo, 0x20)
    ensures HasBit(lo + 256 * hi, 0x10) == HasBit(lo, 0x10)
    ensures HasBit(lo + 256 * hi, 0x08) == HasBit(lo, 0x08)
  {
    HighByteOver32(lo, hi);
    HighByteOver16(lo, hi);
    HighByteOver8(lo, hi);
    EvenShift(lo / 0x20, 4 * hi);
    EvenShift(lo / 0x10, 8 * hi);
    EvenShift(lo / 0x08, 16 * hi);
  }

  lemma EvenShift(a: int, k: int)
    ensures (a + 2 * k) % 2 == a % 2
  {
  }

  lemma HighByteOver32(lo: byte, hi: byte)
    ensures (lo + 256 * hi) / 0x20 == lo / 0x20 + 8 * hi
  {
    assert lo + 256 * hi == 0x20 * (lo / 0x20 + 8 * hi) + lo % 0x20;
  }

  lemma HighByteOver16(lo: byte, hi: byte)
    ensures (lo + 256 * hi) / 0x10 == lo / 0x10 + 16 * hi
    ensures (lo + 256 * hi) % 0x10 == lo % 0x10
  {
    assert lo + 256 * hi == 0x10 * (lo / 0x10 + 16 * hi) + lo % 0x10;
  }

  lemma HighByteOver8(lo: byte, hi: byte)
    ensures (lo + 256 * hi) / 0x08 == lo / 0x08 + 32 * hi
  {
    assert lo + 256 * hi == 0x08 * (lo / 0x08 + 32 * hi) + lo % 0x08;
  }

  /** The value `patch_zstd_header` accumulates with `|=`: the window log under the
      0x0F mask, then the single-segment, checksum and dictionary bits. */
  function FrameHeaderValue(header: ZstdHeader): (r: nat)
    ensures r <= 0x3F
    ensures r % 16 == if header.hasDictId && !HasBit(header.windowLog % 16, 0x08) then header.windowLog % 16 + 8 else header.windowLog % 16
    ensures HasBit(r, 0x20) == header.singleSegment
    ensures HasBit(r, 0x10) == header.hasChecksum
    ensures HasBit(r, 0x08) == (header.hasDictId || HasBit(header.windowLog % 16, 0x08))
  {
    var w := header.windowLog % (ZSTD_FRAME_HEADER_WINDOWLOG_MASK + 1);
    var withSegment := if header.singleSegment then WithBit(w, ZSTD_FRAME_HEADER_SINGLE_SEGMENT_FLAG) else w;
    var withChecksum := if header.hasChecksum then WithBit(withSegment, ZSTD_FRAME_HEADER_CHECKSUM_FLAG) else withSegment;
    var withDict := if header.hasDictId then WithBit(withChecksum, ZSTD_FRAME_HEADER_DICT_ID_FLAG) else withChecksum;
    FlagArithmetic(w, header.singleSegment, header.hasChecksum, header.hasDictId);
    withDict
  }

  /** How the three one-bit ORs act on a value below 16. */
  lemma FlagArithmetic(w: nat, s: bool, c: bool, d: bool)
    requires w < 16
    ensures var a := if s then WithBit(w, 0x20) else w;
            var b := if c then WithBit(a, 0x10) else a;
            var e := if d then WithBit(b, 0x08) else b;
            var d' := d && !HasBit(w, 0x08);
            e == w + (if d' then 8 else 0) + (if c then 16 else 0) + (if s then 32 else 0)
            && e <= 0x3F
            && e % 16 == w + (if d' then 8 else 0)
            && HasBit(e, 0x20) == s && HasBit(e, 0x10) == c && HasBit(e, 0x08) == (d || HasBit(w, 0x08))
  {
    var a := if s then WithBit(w, 0x20) else w;
    assert a == w + (if s then 32 else 0);
    var b := if c then WithBit(a, 0x10) else a;
    assert a / 16 == (if s then 2 else 0);
    assert b == w + (if c then 16 else 0) + (if s then 32 else 0);
    var e := if d then WithBit(b, 0x08) else b;
    assert b / 8 == w / 8 + (if c then 2 else 0) + (if s then 4 else 0);
    var d' := d && !HasBit(w, 0x08);
    assert e == w + (if d' then 8 else 0) + (if c then 16 else 0) + (if s then 32 else 0);
    assert e / 32 == (if s then 1 else 0);
    assert e / 16 == (if c then 1 else 0) + (if s then 2 else 0);
    assert e / 8 == (if d' || HasBit(w, 0x08) then 1 else 0) + (if c then 2 else 0) + (if s then 4 else 0);
  }

  /** The input is long enough and starts with the magic: the only case `patch_zstd_header` changes. */
  predicate Patchable(data: seq<byte>) {
    |data| >= ZSTD_FRAME_HEADER_MIN_SIZE && StartsWith(data, ZSTD_MAGIC_NUMBER)
  }

  /** What `patch_zstd_header` returns. */
  function ZstdPatched(data: seq<byte>, header: ZstdHeader): (r: seq<byte>)
    ensures |r| == |data|
    ensures !Patchable(data) ==> r == data
    ensures Patchable(data) ==> r[4] == FrameHeaderValue(header) && r[5] == 0
    ensures forall i :: 0 <= i < |data| && i != 4 && i != 5 ==> r[i] == data[i]
  {
    if !Patchable(data) then data
    else
      ToLE2(FrameHeaderValue(header));
      data[..4] + ToLE(FrameHeaderValue(header), ZSTD_FRAME_HEADER_SIZE) + data[6..]
  }

  /** `patch_zstd_header`: build the value with `|=`, then overwrite the slice [4:6] of a bytearray copy. */
  method PatchZstdHeader(data: seq<byte>, header: ZstdHeader) returns (out: seq<byte>)
    ensures out == ZstdPatched(data, header)
  {
    if |data| < ZSTD_FRAME_HEADER_MIN_SIZE || !StartsWith(data, ZSTD_MAGIC_NUMBER) {
      return data;
    }
    var frameHeader := header.windowLog % (ZSTD_FRAME_HEADER_WINDOWLOG_MASK + 1);
    if header.singleSegment {
      frameHeader := WithBit(frameHeader, ZSTD_FRAME_HEADER_SINGLE_SEGMENT_FLAG);
    }
    if header.hasChecksum {
      frameHeader := WithBit(frameHeader, ZSTD_FRAME_HEADER_CHECKSUM_FLAG);
    }
    if header.hasDictId {
      frameHeader := WithBit(frameHeader, ZSTD_FRAME_HEADER_DICT_ID_FLAG);
    }
    assert frameHeader == FrameHeaderValue(header);
    var patched := new byte[|data|](i requires 0 <= i < |data| => data[i]);
    ToLE2(frameHeader);
    var headerBytes := ToLE(frameHeader, ZSTD_FRAME_HEADER_SIZE);
    patched[4] := headerBytes[0];
    patched[5] := headerBytes[1];
    out := patched[..];
    assert out == ZstdPatched(data, header);
  }

  /** Parsing a patched frame gives the header back exactly when the window log lies in
      0..15 and the dictionary flag agrees with bit 3 of the window log (the masks overlap). */
  lemma PatchThenParse(data: seq<byte>, header: ZstdHeader)
    requires Patchable(data)
    ensures ParseZstdHeader(ZstdPatched(data, header)) == Some(header) <==>
      0 <= header.windowLog <= 15 && header.hasDictId == HasBit(header.windowLog, 0x08)
  {
    var p := ZstdPatched(data, header);
    assert p[..4] == data[..4];
    var v := FrameHeaderValue(header);
    var parsed := ParseZstdHeader(p);
    assert parsed.Some? && parsed.value.windowLog == v % 16;
    if 0 <= header.windowLog <= 15 && header.hasDictId == HasBit(header.windowLog, 0x08) {
      assert header.windowLog % 16 == header.windowLog;
    }
  }

  /** The frame header byte written is at most 0x3F, so byte 5 is always cleared. */
  lemma PatchClearsHighByte(data: seq<byte>, header: ZstdHeader)
    requires Patchable(data)
    ensures ZstdPatched(data, header)[4] <= 0x3F && ZstdPatched(data, header)[5] == 0
  {
  }

  const ZSTD_LEVELS: seq<int> := [ZSTD_MIN_LEVEL, ZSTD_DEFAULT_LEVEL, ZSTD_MAX_LEVEL]

  /** `_get_available_tools`: `["zstd"]`, plus `"pzstd"` when `pzstd --version` runs. */
  function ZstdTools(env: Env): seq<string> {
    ["zstd"] + (if ToolAvailable(env, ["pzstd", "--version"]) then ["pzstd"] else [])
  }

  /** `_build_command(tool, level)` */
  function BuildZstdCommand(tool: string, level: int): seq<string> {
    if tool == "zstd" then ["zstd", "-" + DecimalString(level), "-c", "--stdout"]
    else ["pzstd", "-" + DecimalString(level), "-c", "--stdout"]
  }

  /** The command names the zstd binary only for "zstd" and always carries a level that reads back. */
  lemma BuildZstdCommandLevel(tool: string, level: nat)
    ensures |BuildZstdCommand(tool, level)| == 4
    ensures BuildZstdCommand(tool, level)[0] == (if tool == "zstd" then "zstd" else "pzstd")
    ensures BuildZstdCommand(tool, level)[1][..1] == "-"
    ensures DigitsValue(BuildZstdCommand(tool, level)[1][1..]) == level
  {
    DigitsRoundTrip(level);
    assert ("-" + Digits(level))[1..] == Digits(level);
  }

  /** `_generate_tool_candidate` (the source file is the runner's input). */
  function ZstdRun(raw: seq<byte>, header: Option<ZstdHeader>, env: Env): ToolLevel -> Option<Candidate> {
    (tl: ToolLevel) =>
      match env.run(BuildZstdCommand(tl.tool, tl.level), raw)
      case None => None
      case Some(out) => Some(Candidate(ToolLabel(tl), if header.Some? then ZstdPatched(out, header.value) else out))
  }

  /** `_generate_header_match_candidate`: `zstd -c --stdout` on the data, patched with the header. */
  function ZstdHeaderMatch(raw: seq<byte>, header: ZstdHeader, env: Env): Option<Candidate> {
    match env.run(["zstd", "-c", "--stdout"], raw)
    case None => None
    case Some(out) => Some(Candidate("header_match", ZstdPatched(out, header)))
  }

  /** The list `generate_zstd_candidates` returns. */
  function ZstdCandidates(raw: seq<byte>, header: Option<ZstdHeader>, env: Env): seq<Candidate> {
    (if header.Some? && ZstdHeaderMatch(raw, header.value, env).Some? then [ZstdHeaderMatch(raw, header.value, env).value] else [])
    + RunAll(ToolLevelGrid(ZstdTools(env), ZSTD_LEVELS), ZstdRun(raw, header, env))
  }

  method GenerateHeaderMatchCandidate(raw: seq<byte>, header: ZstdHeader, env: Env) returns (r: Option<Candidate>)
    ensures r == ZstdHeaderMatch(raw, header, env)
  {
    var proc := env.run(["zstd", "-c", "--stdout"], raw);
    if proc.Some? {
      var data := PatchZstdHeader(proc.value, header);
      return Some(Candidate("header_match", data));
    }
    return None;
  }

  method GenerateZstdCandidates(raw: seq<byte>, header: Option<ZstdHeader>, env: Env) returns (cands: seq<Candidate>)
    ensures cands == ZstdCandidates(raw, header, env)
  {
    cands := [];
    if header.Some? {
      var headerMatch := GenerateHeaderMatchCandidate(raw, header.value, env);
      if headerMatch.Some? {
        cands := cands + [headerMatch.value];
      }
    }
    var tools := ["zstd"];
    if ToolAvailable(env, ["pzstd", "--version"]) {
      tools := tools + ["pzstd"];
    }
    var runs := GenerateToolLevelCandidates(tools, ZSTD_LEVELS, ZstdRun(raw, header, env));
    cands := cands + runs;
  }

  /** The tool runs: zstd at levels 1, 3, 22, then pzstd at 1, 3, 22 when it is available. */
  lemma ZstdGridOrder(env: Env)
    ensures ToolLevelGrid(ZstdTools(env), ZSTD_LEVELS) ==
      [ToolLevel("zstd", 1), ToolLevel("zstd", 3), ToolLevel("zstd", 22)] +
      (if ToolAvailable(env, ["pzstd", "--version"]) then [ToolLevel("pzstd", 1), ToolLevel("pzstd", 3), ToolLevel("pzstd", 22)] else [])
  {
    ToolLevelGridPair("zstd", "pzstd", ZSTD_LEVELS);
  }

  /** At most one header candidate and at most six tool runs. */
  lemma ZstdCandidateCount(raw: seq<byte>, header: Option<ZstdHeader>, env: Env)
    ensures |ZstdCandidates(raw, header, env)| <= 7
  {
    ZstdGridOrder(env);
  }
}
