/** bz2.py: the `BZh<level>` stream header, its patching, and the bzip2 candidate list. */
module Bzip2 {
  import opened Wrappers
  import opened Bytes
  import opened Slices
  import opened Text
  import opened Platform
  import opened Matching

  const BZIP2_MAGIC: seq<byte> := Ascii("BZh")
  const BZIP2_HEADER_SIZE: nat := 4
  const BZIP2_MIN_LEVEL: int := 1
  const BZIP2_MAX_LEVEL: int := 9
  const BZIP2_LEVEL_BYTE_POS: nat := 3

  /** `BZIP2_BLOCK_SIZES`: 100k bytes per level, for levels 1 to 9. */
  const BZIP2_BLOCK_SIZES: map<int, int> := map level | BZIP2_MIN_LEVEL <= level <= BZIP2_MAX_LEVEL :: level * 100000

  datatype Bzip2Header = Bzip2Header(level: int, blockSize: int)

  /** `BZIP2_BLOCK_SIZES.get(level, 0)`, the size `_get_block_size_description` reports. */
  function BlockSize(level: int): (r: int)
    ensures 1 <= level <= 9 ==> r == 100000 * level
    ensures !(1 <= level <= 9) ==> r == 0
  {
    if level in BZIP2_BLOCK_SIZES then BZIP2_BLOCK_SIZES[level] else 0
  }

  /** `parse_bzip2_header` on the file's bytes (it reads the first four). */
  function ParseBzip2Header(file: seq<byte>): (r: Option<Bzip2Header>)
    ensures r.Some? <==> |file| >= 4 && file[..3] == BZIP2_MAGIC && '1' as int <= file[3] <= '9' as int
    ensures r.Some? ==> 1 <= r.value.level <= 9 && r.value.level == file[3] - '0' as int
    ensures r.Some? ==> r.value.blockSize == 100000 * r.value.level
  {
    var data := Prefix(file, BZIP2_HEADER_SIZE);
    if |data| < BZIP2_HEADER_SIZE || !StartsWith(data, BZIP2_MAGIC) then None
    else if data[BZIP2_LEVEL_BYTE_POS] < '1' as int || data[BZIP2_LEVEL_BYTE_POS] > '9' as int then None
    else
      var digit := data[BZIP2_LEVEL_BYTE_POS] as char;
      assert IsDigit(digit);
      var level := DigitsValue([digit]);
      DigitsValueOne(digit);
      assert level == digit as int - '0' as int == data[BZIP2_LEVEL_BYTE_POS] - '0' as int;
      Some(Bzip2Header(level, BlockSize(level)))
  }

  /** The input is long enough and starts with "BZh": the only case `patch_bzip2_header` changes. */
  predicate Patchable(data: seq<byte>) {
    |data| >= BZIP2_HEADER_SIZE && StartsWith(data, BZIP2_MAGIC)
  }

  /** What `patch_bzip2_header` returns; `ord(str(level))` raises unless 0 <= level <= 9. */
  function Bzip2Patched(data: seq<byte>, header: Bzip2Header): (r: seq<byte>)
    requires Patchable(data) ==> 0 <= header.level <= 9
    ensures |r| == |data|
    ensures !Patchable(data) ==> r == data
    ensures Patchable(data) ==> r[BZIP2_LEVEL_BYTE_POS] == '0' as int + header.level
    ensures forall i :: 0 <= i < |data| && i != BZIP2_LEVEL_BYTE_POS ==> r[i] == data[i]
  {
    if !Patchable(data) then data
    else data[BZIP2_LEVEL_BYTE_POS := DecimalString(header.level)[0] as int]
  }

  /** `patch_bzip2_header`: copy into a bytearray and overwrite the level byte in place. */
  method PatchBzip2Header(data: seq<byte>, header: Bzip2Header) returns (out: seq<byte>)
    requires Patchable(data) ==> 0 <= header.level <= 9
    ensures out == Bzip2Patched(data, header)
  {
    if |data| < BZIP2_HEADER_SIZE || !StartsWith(data, BZIP2_MAGIC) {
      return data;
    }
    var patched := new byte[|data|](i requires 0 <= i < |data| => data[i]);
    patched[BZIP2_LEVEL_BYTE_POS] := DecimalString(header.level)[0] as int;
    out := patched[..];
  }

  /** Patching a bzip2 stream with a header of level 1..9 and parsing it back gives that level. */
  lemma PatchThenParse(data: seq<byte>, header: Bzip2Header)
    requires Patchable(data) && 1 <= header.level <= 9
    ensures ParseBzip2Header(Bzip2Patched(data, header)) == Some(Bzip2Header(header.level, 100000 * header.level))
  {
    var p := Bzip2Patched(data, header);
    assert p[..3] == data[..3];
  }

  /** Patching with the header parsed from the same bytes changes nothing. */
  lemma ParseThenPatch(data: seq<byte>)
    requires ParseBzip2Header(data).Some?
    ensures Bzip2Patched(data, ParseBzip2Header(data).value) == data
  {
  }

  const BZIP2_LEVELS: seq<int> := [BZIP2_MIN_LEVEL, 6, BZIP2_MAX_LEVEL]

  /** `["bzip2"]`, plus `"pbzip2"` when `pbzip2 -h` runs. */
  function Bzip2Tools(env: Env): seq<string> {
    ["bzip2"] + (if ToolAvailable(env, ["pbzip2", "-h"]) then ["pbzip2"] else [])
  }

  /** `[tool, f"-{level}", "-c", str(src)]`; the source file is the runner's input. */
  function Bzip2Command(tl: ToolLevel): seq<string> {
    if tl.tool == "bzip2" then ["bzip2", "-" + DecimalString(tl.level), "-c"]
    else ["pbzip2", "-" + DecimalString(tl.level), "-c"]
  }

  function Bzip2Run(raw: seq<byte>, env: Env): ToolLevel -> Option<Candidate> {
    (tl: ToolLevel) =>
      match env.run(Bzip2Command(tl), raw)
      case None => None
      case Some(out) => Some(Candidate(ToolLabel(tl), out))
  }

  /** The "header_match" candidate: Python's bz2 at the partial file's level. */
  function Bzip2HeaderMatch(raw: seq<byte>, header: Option<Bzip2Header>, env: Env): seq<Candidate> {
    if header.None? then []
    else match env.pyBz2(raw, header.value.level)
      case None => []
      case Some(out) => [Candidate("header_match", out)]
  }

  /** The list `generate_bzip2_candidates` returns. */
  function Bzip2Candidates(raw: seq<byte>, header: Option<Bzip2Header>, env: Env): seq<Candidate> {
    Bzip2HeaderMatch(raw, header, env) + RunAll(ToolLevelGrid(Bzip2Tools(env), BZIP2_LEVELS), Bzip2Run(raw, env))
  }

  method GenerateBzip2Candidates(raw: seq<byte>, header: Option<Bzip2Header>, env: Env) returns (cands: seq<Candidate>)
    ensures cands == Bzip2Candidates(raw, header, env)
  {
    cands := [];
    if header.Some? {
      var compressed := env.pyBz2(raw, header.value.level);
      if compressed.Some? {
        cands := cands + [Candidate("header_match", compressed.value)];
      }
    }
    var tools := ["bzip2"];
    if ToolAvailable(env, ["pbzip2", "-h"]) {
      tools := tools + ["pbzip2"];
    }
    var runs := GenerateToolLevelCandidates(tools, BZIP2_LEVELS, Bzip2Run(raw, env));
    cands := cands + runs;
  }

  /** The tool runs: bzip2 at levels 1, 6, 9, then pbzip2 at 1, 6, 9 when it is available. */
  lemma Bzip2GridOrder(env: Env)
    ensures ToolLevelGrid(Bzip2Tools(env), BZIP2_LEVELS) ==
      [ToolLevel("bzip2", 1), ToolLevel("bzip2", 6), ToolLevel("bzip2", 9)] +
      (if ToolAvailable(env, ["pbzip2", "-h"]) then [ToolLevel("pbzip2", 1), ToolLevel("pbzip2", 6), ToolLevel("pbzip2", 9)] else [])
  {
    ToolLevelGridPair("bzip2", "pbzip2", BZIP2_LEVELS);
  }

  /** At most one header candidate and at most six tool runs. */
  lemma Bzip2CandidateCount(raw: seq<byte>, header: Option<Bzip2Header>, env: Env)
    ensures |Bzip2Candidates(raw, header, env)| <= 7
  {
    Bzip2GridOrder(env);
    assert |Bzip2HeaderMatch(raw, header, env)| <= 1;
  }
}
