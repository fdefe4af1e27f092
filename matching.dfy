/**
 * The first-piece matcher shared by the four codec modules (each of gzip.py, bz2.py,
 * xz.py and zst.py carries an identical copy of `find_matching_candidate`), and the
 * fixed-order enumeration of compressor runs their candidate generators perform.
 */
module Matching {
  import opened Wrappers
  import opened Bytes
  import opened Slices
  import opened Text
  import opened Platform

  /** A `(label, data)` pair; `tag` is the label: which tool and settings produced the bytes. */
  datatype Candidate = Candidate(tag: string, data: seq<byte>)

  /** `sha1_piece if hash_algo == "sha1" else sha256_piece` */
  function HashFor(env: Env, hashAlgo: string): seq<byte> -> seq<byte> {
    if hashAlgo == "sha1" then env.sha1 else env.sha256
  }

  /** The candidate holds at least a piece and its first piece hashes to the target. */
  predicate FirstPieceMatches(c: Candidate, target: seq<byte>, pieceLength: int, hash: seq<byte> -> seq<byte>) {
    !(|c.data| < pieceLength) && hash(Prefix(c.data, pieceLength)) == target
  }

  /** Position of the first matching candidate in list order. */
  function FirstMatchIndex(cands: seq<Candidate>, target: seq<byte>, pieceLength: int, hash: seq<byte> -> seq<byte>): (r: Option<nat>)
    ensures r.None? <==> forall i :: 0 <= i < |cands| ==> !FirstPieceMatches(cands[i], target, pieceLength, hash)
    ensures r.Some? ==> r.value < |cands| && FirstPieceMatches(cands[r.value], target, pieceLength, hash)
    ensures r.Some? ==> forall i :: 0 <= i < r.value ==> !FirstPieceMatches(cands[i], target, pieceLength, hash)
    decreases |cands|
  {
    if cands == [] then None
    else if FirstPieceMatches(cands[0], target, pieceLength, hash) then Some(0)
    else match FirstMatchIndex(cands[1..], target, pieceLength, hash)
      case None => None
      case Some(i) => Some(i + 1)
  }

  function FirstMatch(cands: seq<Candidate>, target: seq<byte>, pieceLength: int, hash: seq<byte> -> seq<byte>): Option<Candidate> {
    match FirstMatchIndex(cands, target, pieceLength, hash)
    case None => None
    case Some(i) => Some(cands[i])
  }

  /** `find_matching_candidate`: the first candidate, in list order, whose first piece matches. */
  method FindMatchingCandidate(candidates: seq<Candidate>, targetPieceHash: seq<byte>, pieceLength: int, hashAlgo: string, env: Env)
    returns (r: Option<Candidate>)
    ensures r == FirstMatch(candidates, targetPieceHash, pieceLength, HashFor(env, hashAlgo))
  {
    var hash := HashFor(env, hashAlgo);
    var i := 0;
    while i < |candidates|
      invariant 0 <= i <= |candidates|
      invariant forall j :: 0 <= j < i ==> !FirstPieceMatches(candidates[j], targetPieceHash, pieceLength, hash)
    {
      var c := candidates[i];
      if |c.data| < pieceLength {
        i := i + 1;
        continue;
      }
      var piece := Prefix(c.data, pieceLength);
      if hash(piece) == targetPieceHash {
        return Some(c);
      }
      i := i + 1;
    }
    return None;
  }

  /** The runs that succeeded, in the order they were tried: failed tool runs are dropped. */
  function RunAll<P>(ps: seq<P>, run: P -> Option<Candidate>): (r: seq<Candidate>)
    ensures |r| <= |ps|
    decreases |ps|
  {
    if ps == [] then []
    else RunAll(ps[..|ps| - 1], run) + (match run(ps[|ps| - 1]) case None => [] case Some(c) => [c])
  }

  lemma {:induction false} RunAllAppend<P>(a: seq<P>, b: seq<P>, run: P -> Option<Candidate>)
    ensures RunAll(a + b, run) == RunAll(a, run) + RunAll(b, run)
    decreases |b|
  {
    if b == [] {
      assert a + b == a;
    } else {
      var n := |b|;
      RunAllAppend(a, b[..n - 1], run);
      assert (a + b)[..|a + b| - 1] == a + b[..n - 1];
    }
  }

  /** When every run succeeds, the candidates are exactly the runs' outputs in grid order. */
  lemma {:induction false} RunAllAllSucceed<P>(ps: seq<P>, run: P -> Option<Candidate>)
    requires forall i :: 0 <= i < |ps| ==> run(ps[i]).Some?
    ensures |RunAll(ps, run)| == |ps|
    ensures forall i :: 0 <= i < |ps| ==> RunAll(ps, run)[i] == run(ps[i]).value
    decreases |ps|
  {
    if ps != [] {
      RunAllAllSucceed(ps[..|ps| - 1], run);
    }
  }

  /** Every candidate is the output of one of the grid's runs. */
  lemma {:induction false} RunAllFromRuns<P>(ps: seq<P>, run: P -> Option<Candidate>, k: nat)
    requires k < |RunAll(ps, run)|
    ensures exists i :: 0 <= i < |ps| && run(ps[i]) == Some(RunAll(ps, run)[k])
    decreases |ps|
  {
    var n := |ps|;
    var front := RunAll(ps[..n - 1], run);
    if k < |front| {
      RunAllFromRuns(ps[..n - 1], run, k);
      var i :| 0 <= i < n - 1 && run(ps[..n - 1][i]) == Some(front[k]);
      assert ps[i] == ps[..n - 1][i];
    } else {
      assert run(ps[n - 1]) == Some(RunAll(ps, run)[k]);
    }
  }

  /** A tool name and compression level, as bz2.py, xz.py and zst.py iterate them. */
  datatype ToolLevel = ToolLevel(tool: string, level: int)

  /** The label `f"{tool} -{level}"` of a tool candidate. */
  function ToolLabel(tl: ToolLevel): string {
    tl.tool + " -" + DecimalString(tl.level)
  }

  function LevelRow(tool: string, levels: seq<int>): (r: seq<ToolLevel>)
    ensures |r| == |levels|
    ensures forall i :: 0 <= i < |levels| ==> r[i] == ToolLevel(tool, levels[i])
  {
    seq(|levels|, i requires 0 <= i < |levels| => ToolLevel(tool, levels[i]))
  }

  /** `for tool in tools: for level in levels:` */
  function ToolLevelGrid(tools: seq<string>, levels: seq<int>): seq<ToolLevel>
    decreases |tools|
  {
    if tools == [] then []
    else ToolLevelGrid(tools[..|tools| - 1], levels) + LevelRow(tools[|tools| - 1], levels)
  }

  /** Tool-major order for one tool or a tool and its parallel variant. */
  lemma {:induction false} ToolLevelGridPair(t0: string, t1: string, levels: seq<int>)
    ensures ToolLevelGrid([t0], levels) == LevelRow(t0, levels)
    ensures ToolLevelGrid([t0, t1], levels) == LevelRow(t0, levels) + LevelRow(t1, levels)
  {
    assert [t0, t1][..1] == [t0];
    assert [t0][..0] == [];
  }

  /** The inner loop over levels at one tool: each successful run is appended in turn. */
  method RunLevelRow(tool: string, levels: seq<int>, run: ToolLevel -> Option<Candidate>) returns (cands: seq<Candidate>)
    ensures cands == RunAll(LevelRow(tool, levels), run)
  {
    cands := [];
    for li := 0 to |levels|
      invariant cands == RunAll(LevelRow(tool, levels[..li]), run)
    {
      var candidate := run(ToolLevel(tool, levels[li]));
      if candidate.Some? {
        cands := cands + [candidate.value];
      }
      assert LevelRow(tool, levels[..li + 1]) == LevelRow(tool, levels[..li]) + [ToolLevel(tool, levels[li])];
      RunAllAppend(LevelRow(tool, levels[..li]), [ToolLevel(tool, levels[li])], run);
    }
    assert levels[..|levels|] == levels;
  }

  /** The nested tool/level loop of `generate_bzip2_candidates`, `generate_xz_candidates`
      and `generate_zstd_candidates`. */
  method GenerateToolLevelCandidates(tools: seq<string>, levels: seq<int>, run: ToolLevel -> Option<Candidate>)
    returns (cands: seq<Candidate>)
    ensures cands == RunAll(ToolLevelGrid(tools, levels), run)
  {
    cands := [];
    for ti := 0 to |tools|
      invariant cands == RunAll(ToolLevelGrid(tools[..ti], levels), run)
    {
      var tool := tools[ti];
      var row := RunLevelRow(tool, levels, run);
      cands := cands + row;
      assert tools[..ti + 1][..ti] == tools[..ti];
      RunAllAppend(ToolLevelGrid(tools[..ti], levels), LevelRow(tool, levels), run);
    }
    assert tools[..|tools|] == tools;
  }
}
