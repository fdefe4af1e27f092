/**
 * xz.py: the first twelve bytes of an .xz stream, their patching and the xz candidate list.
 * The code reads the two bytes after the magic as one little-endian integer and takes its
 * low bit as "CRC64 enabled"; it does not check the stored CRC32 of bytes 8..11. That is
 * what is modelled here, not the published stream-flags layout.
 */
module Xz {
  import opened Wrappers
  import opened Bytes
  import opened Slices
  import opened Text
  import opened Platform
  import opened Matching

  const XZ_MAGIC: seq<byte> := [0xFD, 0x37, 0x7A, 0x58, 0x5A, 0x00]
  const XZ_HEADER_MIN_SIZE: nat := 12
  const XZ_STREAM_FLAGS_SIZE: nat := 2
  const XZ_STREAM_FLAGS_CRC64: nat := 1
  const XZ_MIN_LEVEL: int := 0
  const XZ_DEFAULT_LEVEL: int := 6
  const XZ_MAX_LEVEL: int := 9

  datatype XzHeader = XzHeader(flags: int, hasCrc64: bool)

  /** `parse_xz_header` on the file's bytes (it reads the first twelve). The "CRC" it
      computes over bytes 0..7 is compared with nothing, so it is left out. */
  function ParseXzHeader(file: seq<byte>): (r: Option<XzHeader>)
    ensures r.None? <==> |file| < XZ_HEADER_MIN_SIZE || file[..6] != XZ_MAGIC
    ensures r.Some? ==> r.value.flags == file[6] as int + 256 * (file[7] as int) && 0 <= r.value.flags < 0x1_0000
    ensures r.Some? ==> r.value.hasCrc64 == (file[6] % 2 == 1)
  {
    var data := Prefix(file, XZ_HEADER_MIN_SIZE);
    if |data| < XZ_HEADER_MIN_SIZE || !StartsWith(data, XZ_MAGIC) then None
    else
      var flags := FromLE(data[6..8]);
      LE16(data[6], data[7]);
      assert data[6..8] == [data[6], data[7]];
      Some(XzHeader(flags, HasBit(flags, XZ_STREAM_FLAGS_CRC64)))
  }

  /** Bytes 8..11 (the stored header CRC) never influence the parsed header. */
  lemma ParseIgnoresStoredCheck(a: seq<byte>, b: seq<byte>)
    requires |a| >= XZ_HEADER_MIN_SIZE && |b| >= XZ_HEADER_MIN_SIZE && a[..8] == b[..8]
    ensures ParseXzHeader(a) == ParseXzHeader(b)
  {
    assert a[..6] == a[..8][..6] && b[..6] == b[..8][..6];
    assert a[6] == a[..8][6] && a[7] == a[..8][7];
    assert b[6] == b[..8][6] && b[7] == b[..8][7];
  }

  /** The input is long enough and starts with the magic: the only case `patch_xz_header` changes. */
  predicate Patchable(data: seq<byte>) {
    |data| >= XZ_HEADER_MIN_SIZE && StartsWith(data, XZ_MAGIC)
  }

  /** What `patch_xz_header` returns; `to_bytes(2, "little")` raises unless 0 <= flags < 2^16. */
  function XzPatched(data: seq<byte>, header: XzHeader): (r: seq<byte>)
    requires Patchable(data) ==> 0 <= header.flags < 0x1_0000
    ensures |r| == |data|
    ensures !Patchable(data) ==> r == data
    ensures Patchable(data) ==> r[6] == header.flags % 256 && r[7] == header.flags / 256
    ensures forall i :: 0 <= i < |data| && i != 6 && i != 7 ==> r[i] == data[i]
  {
    if !Patchable(data) then data
    else
      ToLE2(header.flags);
      data[..6] + ToLE(header.flags, XZ_STREAM_FLAGS_SIZE) + data[8..]
  }

  /** `patch_xz_header`: copy into a bytearray and overwrite the slice [6:8] in place. */
  method PatchXzHeader(data: seq<byte>, header: XzHeader) returns (out: seq<byte>)
    requires Patchable(data) ==> 0 <= header.flags < 0x1_0000
    ensures out == XzPatched(data, header)
  {
    if |data| < XZ_HEADER_MIN_SIZE || !StartsWith(data, XZ_MAGIC) {
      return data;
    }
    var patched := new byte[|data|](i requires 0 <= i < |data| => data[i]);
    Pow256Values();
    var flagBytes := ToLE(header.flags, XZ_STREAM_FLAGS_SIZE);
    patched[6] := flagBytes[0];
    patched[7] := flagBytes[1];
    out := patched[..];
    assert out == XzPatched(data, header);
  }

  /** Parsing a patched stream gives the header back exactly when its CRC64 flag agrees with bit 0 of flags. */
  lemma PatchThenParse(data: seq<byte>, header: XzHeader)
    requires Patchable(data) && 0 <= header.flags < 0x1_0000
    ensures ParseXzHeader(XzPatched(data, header)) == Some(header) <==> header.hasCrc64 == HasBit(header.flags, XZ_STREAM_FLAGS_CRC64)
  {
    var p := XzPatched(data, header);
    assert p[..6] == data[..6];
    LE16(p[6], p[7]);
  }

  /** Patching with the header parsed from the same bytes changes nothing. */
  lemma ParseThenPatch(data: seq<byte>)
    requires ParseXzHeader(data).Some?
    ensures XzPatched(data, ParseXzHeader(data).value) == data
  {
    var p := XzPatched(data, ParseXzHeader(data).value);
    assert p == data;
  }

  const XZ_LEVELS: seq<int> := [XZ_MIN_LEVEL, XZ_DEFAULT_LEVEL, XZ_MAX_LEVEL]

  /** `_get_available_tools`: `["xz"]`, plus `"pixz"` when `pixz --version` runs. */
  function XzTools(env: Env): seq<string> {
    ["xz"] + (if ToolAvailable(env, ["pixz", "--version"]) then ["pixz"] else [])
  }

  /** `_build_command(tool, level)` */
  function BuildXzCommand(tool: string, level: int): seq<string> {
    if tool == "xz" then ["xz", "-" + DecimalString(level), "-c", "--stdout"]
    else ["pixz", "-" + DecimalString(level), "-c", "--stdout"]
  }

  /** The command names the xz binary only for "xz" and always carries a level that reads back. */
  lemma BuildXzCommandLevel(tool: string, level: nat)
    ensures |BuildXzCommand(tool, level)| == 4
    ensures BuildXzCommand(tool, level)[0] == (if tool == "xz" then "xz" else "pixz")
    ensures BuildXzCommand(tool, level)[1][..1] == "-"
    ensures DigitsValue(BuildXzCommand(tool, level)[1][1..]) == level
  {
    DigitsRoundTrip(level);
    assert ("-" + Digits(level))[1..] == Digits(level);
  }

  /** `_generate_tool_candidate` (the source file is the runner's input). */
  function XzRun(raw: seq<byte>, header: Option<XzHeader>, env: Env): ToolLevel -> Option<Candidate>
    requires header.Some? ==> 0 <= header.value.flags < 0x1_0000
  {
    (tl: ToolLevel) =>
      match env.run(BuildXzCommand(tl.tool, tl.level), raw)
      case None => None
      case Some(out) => Some(Candidate(ToolLabel(tl), if header.Some? then XzPatched(out, header.value) else out))
  }

  /** `_generate_header_match_candidate`: `xz -c --stdout` on the data, patched with the header. */
  function XzHeaderMatch(raw: seq<byte>, header: XzHeader, env: Env): Option<Candidate>
    requires 0 <= header.flags < 0x1_0000
  {
    match env.run(["xz", "-c", "--stdout"], raw)
    case None => None
    case Some(out) => Some(Candidate("header_match", XzPatched(out, header)))
  }

  /** The list `generate_xz_candidates` returns. */
  function XzCandidates(raw: seq<byte>, header: Option<XzHeader>, env: Env): seq<Candidate>
    requires header.Some? ==> 0 <= header.value.flags < 0x1_0000
  {
    (if header.Some? && XzHeaderMatch(raw, header.value, env).Some? then [XzHeaderMatch(raw, header.value, env).value] else [])
    + RunAll(ToolLevelGrid(XzTools(env), XZ_LEVELS), XzRun(raw, header, env))
  }

  method GenerateHeaderMatchCandidate(raw: seq<byte>, header: XzHeader, env: Env) returns (r: Option<Candidate>)
    requires 0 <= header.flags < 0x1_0000
    ensures r == XzHeaderMatch(raw, header, env)
  {
    var proc := env.run(["xz", "-c", "--stdout"], raw);
    if proc.Some? {
      var data := PatchXzHeader(proc.value, header);
      return Some(Candidate("header_match", data));
    }
    return None;
  }

  method GenerateXzCandidates(raw: seq<byte>, header: Option<XzHeader>, env: Env) returns (cands: seq<Candidate>)
    requires header.Some? ==> 0 <= header.value.flags < 0x1_0000
    ensures cands == XzCandidates(raw, header, env)
  {
    cands := [];
    if header.Some? {
      var headerMatch := GenerateHeaderMatchCandidate(raw, header.value, env);
      if headerMatch.Some? {
        cands := cands + [headerMatch.value];
      }
    }
    var tools := ["xz"];
    if ToolAvailable(env, ["pixz", "--version"]) {
      tools := tools + ["pixz"];
    }
    var runs := GenerateToolLevelCandidates(tools, XZ_LEVELS, XzRun(raw, header, env));
    cands := cands + runs;
  }

  /** The tool runs: xz at levels 0, 6, 9, then pixz at 0, 6, 9 when it is available. */
  lemma XzGridOrder(env: Env)
    ensures ToolLevelGrid(XzTools(env), XZ_LEVELS) ==
      [ToolLevel("xz", 0), ToolLevel("xz", 6), ToolLevel("xz", 9)] +
      (if ToolAvailable(env, ["pixz", "--version"]) then [ToolLevel("pixz", 0), ToolLevel("pixz", 6), ToolLevel("pixz", 9)] else [])
  {
    ToolLevelGridPair("xz", "pixz", XZ_LEVELS);
  }

  /** At most one header candidate and at most six tool runs. */
  lemma XzCandidateCount(raw: seq<byte>, header: Option<XzHeader>, env: Env)
    requires header.Some? ==> 0 <= header.value.flags < 0x1_0000
    ensures |XzCandidates(raw, header, env)| <= 7
  {
    XzGridOrder(env);
  }
}
