/**
 * The recovery decisions of `core.py`: the basename index over a directory walk, the
 * choice among same-named files, the skip rules, the raw-name derivation, the start-piece
 * lookup and the per-file attempts (a partial file whose first piece matches, then a raw
 * file with matching BEP 47 SHA-1, then any raw file of the right name) with the seven
 * counters of `recover`. File system changes are returned as a list of effects.
 */
module Recovery {
  import opened Wrappers
  import opened Bytes
  import opened Slices
  import opened Text
  import opened Platform
  import opened Matching
  import opened Bencode
  import Gzip
  import Bzip2
  import Xz
  import Zstd

  // ---------------------------------------------------------------- basename index

  /** A directory given to `build_basename_index`: whether it exists, and what `os.walk`
      lists under it, in walk order. */
  datatype Root = Root(present: bool, walk: seq<FileEntry>)

  /** `dict[str, list[Path]]` keyed by file name. */
  type Index = map<string, seq<FileEntry>>

  /** `idx.get(name, [])` */
  function Lookup(idx: Index, name: string): seq<FileEntry> {
    if name in idx then idx[name] else []
  }

  /** `p.name` */
  function FileName(f: FileEntry): string {
    Basename(f.path)
  }

  /** `idx.setdefault(p.name, []).append(p)` */
  function Add(idx: Index, f: FileEntry): Index {
    idx[FileName(f) := Lookup(idx, FileName(f)) + [f]]
  }

  /** The index after adding the files in order. */
  function AddAll(idx: Index, files: seq<FileEntry>): Index
    decreases |files|
  {
    if files == [] then idx else Add(AddAll(idx, files[..|files| - 1]), files[|files| - 1])
  }

  /** The entries of one walk that are regular files. */
  function RegularFiles(walk: seq<FileEntry>): (r: seq<FileEntry>)
    ensures forall f :: f in r ==> f.isFile && f in walk
    decreases |walk|
  {
    if walk == [] then []
    else RegularFiles(walk[..|walk| - 1]) + (if walk[|walk| - 1].isFile then [walk[|walk| - 1]] else [])
  }

  /** The files indexed from the given roots: regular files of the roots that exist, root by
      root in walk order. */
  function IndexedFiles(roots: seq<Root>): seq<FileEntry>
    decreases |roots|
  {
    if roots == [] then []
    else
      var r := roots[|roots| - 1];
      IndexedFiles(roots[..|roots| - 1]) + (if r.present then RegularFiles(r.walk) else [])
  }

  /** The files of a list that have the given name, in list order: the reference the index
      is checked against. */
  function Named(files: seq<FileEntry>, name: string): (r: seq<FileEntry>)
    ensures |r| <= |files|
    ensures forall k :: 0 <= k < |r| ==> HasName(r[k], name)
    decreases |files|
  {
    if files == [] then []
    else
      var last := files[|files| - 1];
      Named(files[..|files| - 1], name) + (if HasName(last, name) then [last] else [])
  }

  /** `p.name == name` */
  predicate HasName(f: FileEntry, name: string) {
    FileName(f) == name
  }

  lemma {:induction false} AddAllAppend(idx: Index, a: seq<FileEntry>, b: seq<FileEntry>)
    ensures AddAll(idx, a + b) == AddAll(AddAll(idx, a), b)
    decreases |b|
  {
    if b == [] {
      assert a + b == a;
    } else {
      var b' := b[..|b| - 1];
      assert (a + b)[..|a + b| - 1] == a + b';
      assert (a + b)[|a + b| - 1] == b[|b| - 1];
      AddAllAppend(idx, a, b');
      assert AddAll(idx, a + b) == Add(AddAll(idx, a + b'), b[|b| - 1]);
    }
  }

  /** Looking a name up in the index built from a list gives exactly the files of that name,
      in list order; the name is a key exactly when there is one. */
  lemma {:induction false} IndexLookup(files: seq<FileEntry>, name: string)
    ensures Lookup(AddAll(map[], files), name) == Named(files, name)
    ensures name in AddAll(map[], files) <==> Named(files, name) != []
    decreases |files|
  {
    if files != [] {
      IndexLookup(files[..|files| - 1], name);
    }
  }

  /** The inner loop of `build_basename_index` over one root's walk. */
  method IndexWalk(idx0: Index, walk: seq<FileEntry>) returns (idx: Index)
    ensures idx == AddAll(idx0, RegularFiles(walk))
  {
    idx := idx0;
    for i := 0 to |walk|
      invariant idx == AddAll(idx0, RegularFiles(walk[..i]))
    {
      var p := walk[i];
      IndexWalkStep(idx0, walk, i);
      if !p.isFile {
        continue;
      }
      var name := FileName(p);
      var bucket := if name in idx then idx[name] else [];
      idx := idx[name := bucket + [p]];
    }
    assert walk[..|walk|] == walk;
  }

  /** One step of the walk: a regular file is added to the index, anything else is skipped. */
  lemma {:induction false} IndexWalkStep(idx0: Index, walk: seq<FileEntry>, i: nat)
    requires i < |walk|
    ensures AddAll(idx0, RegularFiles(walk[..i + 1]))
      == if walk[i].isFile then Add(AddAll(idx0, RegularFiles(walk[..i])), walk[i])
         else AddAll(idx0, RegularFiles(walk[..i]))
  {
    RegularFilesSnoc(walk, i);
    var before := RegularFiles(walk[..i]);
    if walk[i].isFile {
      AddAllSnoc(idx0, before, walk[i]);
    } else {
      assert before + [] == before;
    }
  }

  lemma RegularFilesSnoc(walk: seq<FileEntry>, i: nat)
    requires i < |walk|
    ensures RegularFiles(walk[..i + 1])
      == RegularFiles(walk[..i]) + (if walk[i].isFile then [walk[i]] else [])
  {
    assert walk[..i + 1][..i] == walk[..i];
  }

  lemma {:induction false} AddAllSnoc(idx: Index, files: seq<FileEntry>, f: FileEntry)
    ensures AddAll(idx, files + [f]) == Add(AddAll(idx, files), f)
  {
    assert (files + [f])[..|files|] == files;
  }

  /** `build_basename_index`: every regular file of every existing root, under its name. */
  method BuildBasenameIndex(roots: seq<Root>) returns (idx: Index)
    ensures idx == AddAll(map[], IndexedFiles(roots))
  {
    idx := map[];
    for ri := 0 to |roots|
      invariant idx == AddAll(map[], IndexedFiles(roots[..ri]))
    {
      var r := roots[ri];
      assert roots[..ri + 1][..ri] == roots[..ri];
      if !r.present {
        assert IndexedFiles(roots[..ri + 1]) == IndexedFiles(roots[..ri]) + [];
        assert IndexedFiles(roots[..ri]) + [] == IndexedFiles(roots[..ri]);
        continue;
      }
      assert IndexedFiles(roots[..ri + 1]) == IndexedFiles(roots[..ri]) + RegularFiles(r.walk);
      idx := IndexWalk(idx, r.walk);
      AddAllAppend(map[], IndexedFiles(roots[..ri]), RegularFiles(r.walk));
    }
    assert roots[..|roots|] == roots;
  }

  // ---------------------------------------------------------------- choose_candidate

  /** Where `max(files, key=mtime)` is: the first file of greatest mtime. */
  function MaxMtimeIndex(files: seq<FileEntry>): (i: nat)
    requires |files| > 0
    ensures i < |files|
    ensures forall j :: 0 <= j < |files| ==> files[j].mtime <= files[i].mtime
    ensures forall j :: 0 <= j < i ==> files[j].mtime < files[i].mtime
    decreases |files|
  {
    if |files| == 1 then 0
    else
      var j := MaxMtimeIndex(files[..|files| - 1]);
      if files[|files| - 1].mtime > files[j].mtime then |files| - 1 else j
  }

  /** `[p for p in candidates if p.stat().st_size == expected_size]` */
  function OfSize(files: seq<FileEntry>, size: int): (r: seq<FileEntry>)
    ensures |r| <= |files|
    ensures forall f :: f in r ==> f in files && Size(f) == size
    ensures forall f :: f in files && Size(f) == size ==> f in r
    decreases |files|
  {
    if files == [] then []
    else
      var last := files[|files| - 1];
      OfSize(files[..|files| - 1], size) + (if Size(last) == size then [last] else [])
  }

  /** `choose_candidate`: the only file of the expected size, else the newest of several
      such files, else the newest file overall (the first one on ties). */
  function ChooseCandidate(candidates: seq<FileEntry>, expectedSize: Option<int>): (r: Option<FileEntry>)
    ensures r.None? <==> candidates == []
    ensures r.Some? ==> r.value in candidates
  {
    if candidates == [] then None
    else if expectedSize.Some? && |OfSize(candidates, expectedSize.value)| == 1 then Some(OfSize(candidates, expectedSize.value)[0])
    else if expectedSize.Some? && |OfSize(candidates, expectedSize.value)| > 1 then
      var sized := OfSize(candidates, expectedSize.value);
      Some(sized[MaxMtimeIndex(sized)])
    else Some(candidates[MaxMtimeIndex(candidates)])
  }

  /** The three rules of `choose_candidate`, in the order it applies them. */
  lemma {:induction false} ChooseCandidateRules(candidates: seq<FileEntry>, expectedSize: Option<int>)
    requires candidates != []
    ensures var r := ChooseCandidate(candidates, expectedSize).value;
      (expectedSize.Some? && |OfSize(candidates, expectedSize.value)| == 1 ==>
         r == OfSize(candidates, expectedSize.value)[0] && Size(r) == expectedSize.value)
      && (expectedSize.Some? && |OfSize(candidates, expectedSize.value)| > 1 ==>
         Size(r) == expectedSize.value
         && forall f :: f in candidates && Size(f) == expectedSize.value ==> f.mtime <= r.mtime)
      && (expectedSize.None? || OfSize(candidates, expectedSize.value) == [] ==>
         exists i :: 0 <= i < |candidates| && r == candidates[i]
           && (forall j :: 0 <= j < |candidates| ==> candidates[j].mtime <= r.mtime)
           && (forall j :: 0 <= j < i ==> candidates[j].mtime < r.mtime))
  {
    var r := ChooseCandidate(candidates, expectedSize).value;
    if expectedSize.Some? && |OfSize(candidates, expectedSize.value)| > 1 {
      var sized := OfSize(candidates, expectedSize.value);
      forall f | f in candidates && Size(f) == expectedSize.value
        ensures f.mtime <= r.mtime
      {
        var k :| 0 <= k < |sized| && sized[k] == f;
      }
    }
    if expectedSize.None? || OfSize(candidates, expectedSize.value) == [] {
      var i := MaxMtimeIndex(candidates);
      assert r == candidates[i];
    }
  }

  // ---------------------------------------------------------------- per-file rules

  /** The four compressed formats, told apart by the torrent path's suffix. */
  datatype Format = Gz | Bz2 | Xz | Zst

  /** The last characters the four suffixes fix; no name ends in two of them. */
  lemma SuffixChars(s: string)
    ensures EndsWith(s, ".gz") ==> s[|s| - 1] == 'z' && s[|s| - 2] == 'g'
    ensures EndsWith(s, ".bz2") ==> s[|s| - 1] == '2'
    ensures EndsWith(s, ".xz") ==> s[|s| - 1] == 'z' && s[|s| - 2] == 'x'
    ensures EndsWith(s, ".zst") ==> s[|s| - 1] == 't'
  {
  }

  /** The branch order of `recover`: .gz, then .bz2, .xz, .zst. */
  function FormatOf(relPath: string): (r: Option<Format>)
    ensures r == Some(Gz) <==> EndsWith(relPath, ".gz")
    ensures r == Some(Bz2) <==> EndsWith(relPath, ".bz2")
    ensures r == Some(Xz) <==> EndsWith(relPath, ".xz")
    ensures r == Some(Zst) <==> EndsWith(relPath, ".zst")
  {
    SuffixChars(relPath);
    if EndsWith(relPath, ".gz") then Some(Gz)
    else if EndsWith(relPath, ".bz2") then Some(Bz2)
    else if EndsWith(relPath, ".xz") then Some(Xz)
    else if EndsWith(relPath, ".zst") then Some(Zst)
    else None
  }

  /** BEP 47 padding: `tf.attr and "p" in tf.attr`. */
  predicate IsPadding(attr: Option<string>) {
    attr.Some? && 'p' in attr.value
  }

  /** `_should_skip_file`, with `dst.exists()` given. */
  function ShouldSkipFile(tf: TorrentFile, dstExists: bool, overwrite: bool): (r: bool)
    ensures IsPadding(tf.attr) ==> r
    ensures FormatOf(tf.relPath).None? ==> r
    ensures !IsPadding(tf.attr) && FormatOf(tf.relPath).Some? ==> (r <==> dstExists && !overwrite)
  {
    if IsPadding(tf.attr) then true
    else if !(EndsWith(tf.relPath, ".gz") || EndsWith(tf.relPath, ".bz2") || EndsWith(tf.relPath, ".xz") || EndsWith(tf.relPath, ".zst")) then true
    else if dstExists && !overwrite then true
    else false
  }

  /** A bzip2 level suffix written by the test-data tools: .bz1, .bz6, .bz9. */
  predicate HasBzLevelSuffix(s: string) {
    EndsWith(s, ".bz1") || EndsWith(s, ".bz6") || EndsWith(s, ".bz9")
  }

  predicate HasPbzLevelSuffix(s: string) {
    EndsWith(s, ".pbz1") || EndsWith(s, ".pbz6") || EndsWith(s, ".pbz9")
  }

  /** `_extract_raw_name`: the name with its compression suffix removed. The .gz, .xz and
      .zst tests look at the torrent path, the .bz2 test at the file name. */
  function ExtractRawName(expectedName: string, relPath: string): (r: string)
    ensures |r| <= |expectedName| && expectedName[..|r|] == r
  {
    if EndsWith(relPath, ".gz") then DropLast(expectedName, 3)
    else if EndsWith(expectedName, ".bz2") then
      var withoutBz2 := DropLast(expectedName, 4);
      if HasBzLevelSuffix(withoutBz2) || HasPbzLevelSuffix(withoutBz2) then
        if HasBzLevelSuffix(withoutBz2) then DropLast(withoutBz2, 4) else DropLast(withoutBz2, 5)
      else withoutBz2
    else if EndsWith(relPath, ".xz") then DropLast(expectedName, 3)
    else if EndsWith(relPath, ".zst") then DropLast(expectedName, 4)
    else expectedName
  }

  /** For a torrent path ending in .gz, .xz or .zst, the raw name is the file name with
      exactly that suffix removed. */
  lemma {:induction false} RawNameStripsSuffix(relPath: string, suffix: string)
    requires suffix == ".gz" || suffix == ".xz" || suffix == ".zst"
    requires EndsWith(relPath, suffix)
    ensures ExtractRawName(Basename(relPath), relPath) + suffix == Basename(relPath)
  {
    BasenameKeepsSuffix(relPath, suffix);
    RawNameOfName(Basename(relPath), relPath, suffix);
  }

  /** The same, for any file name that ends with the path's suffix. */
  lemma RawNameOfName(name: string, relPath: string, suffix: string)
    requires suffix == ".gz" || suffix == ".xz" || suffix == ".zst"
    requires EndsWith(relPath, suffix) && EndsWith(name, suffix)
    ensures ExtractRawName(name, relPath) + suffix == name
  {
    DropSuffix(name, suffix);
    if suffix == ".xz" {
      EndsWithExcludes(relPath, ".xz", ".gz", 2);
      EndsWithExcludes(name, ".xz", ".bz2", 1);
    } else if suffix == ".zst" {
      EndsWithExcludes(relPath, ".zst", ".gz", 1);
      EndsWithExcludes(name, ".zst", ".bz2", 1);
      EndsWithExcludes(relPath, ".zst", ".xz", 1);
    }
  }

  /** Two suffixes that differ at the k-th character from the end cannot both end a string. */
  lemma EndsWithExcludes(s: string, a: string, b: string, k: nat)
    requires EndsWith(s, a) && 0 < k <= |a| && k <= |b| && a[|a| - k] != b[|b| - k]
    ensures !EndsWith(s, b)
  {
    EndsWithAt(s, a, k);
    EndsWithAt(s, b, k);
  }

  /** A string ending with `b` holds b's k-th character from the end at its own k-th from the end. */
  lemma EndsWithAt(s: string, b: string, k: nat)
    requires 0 < k <= |b|
    ensures EndsWith(s, b) ==> s[|s| - k] == b[|b| - k]
  {
    if EndsWith(s, b) {
      assert s[|s| - k] == s[|s| - |b|..][|b| - k];
    }
  }

  /** Dropping a suffix the string ends with leaves what comes before it. */
  lemma DropSuffix(name: string, suffix: string)
    requires |suffix| > 0 && EndsWith(name, suffix)
    ensures DropLast(name, |suffix|) + suffix == name
  {
    assert name == name[..|name| - |suffix|] + name[|name| - |suffix|..];
  }

  /** The two level-suffix families exclude each other: the fourth character from the end is
      '.' in one and 'p' in the other. */
  lemma LevelSuffixesDisjoint(s: string)
    ensures HasBzLevelSuffix(s) ==> !HasPbzLevelSuffix(s)
  {
    var n := |s|;
    if HasBzLevelSuffix(s) {
      assert s[n - 4] == s[n - 4..][0];
      if n >= 5 {
        assert s[n - 5..][1] == s[n - 4];
      }
    }
  }

  /** A .bz2 name loses .bz2 and then a .bzN or .pbzN level suffix when it has one. */
  lemma RawNameOfBz2(name: string, relPath: string)
    requires !EndsWith(relPath, ".gz") && EndsWith(name, ".bz2")
    ensures var w := DropLast(name, 4);
      HasBzLevelSuffix(w) ==> ExtractRawName(name, relPath) + w[|w| - 4..] + ".bz2" == name
    ensures var w := DropLast(name, 4);
      HasPbzLevelSuffix(w) ==> ExtractRawName(name, relPath) + w[|w| - 5..] + ".bz2" == name
    ensures var w := DropLast(name, 4);
      !HasBzLevelSuffix(w) && !HasPbzLevelSuffix(w) ==> ExtractRawName(name, relPath) + ".bz2" == name
  {
    var w := DropLast(name, 4);
    assert name == w + ".bz2";
    LevelSuffixesDisjoint(w);
    if HasBzLevelSuffix(w) {
      assert w == w[..|w| - 4] + w[|w| - 4..];
    } else if HasPbzLevelSuffix(w) {
      assert w == w[..|w| - 5] + w[|w| - 5..];
    }
  }

  /** For example "a.pbz6.bz2" yields "a" and "a.bz9.bz2" yields "a". */
  lemma RawNameOfPbzExample()
    ensures ExtractRawName("a.pbz6.bz2", "d/a.pbz6.bz2") == "a"
  {
    var p := "d/a.pbz6.bz2";
    EndsWithExcludes(p, "bz2", ".gz", 3);
    assert "a.pbz6.bz2"[6..] == ".bz2";
    var w := DropLast("a.pbz6.bz2", 4);
    assert w == "a.pbz6";
    assert w[|w| - 4..][0] == 'p';
    assert !HasBzLevelSuffix(w);
    assert w[|w| - 5..] == ".pbz6";
    assert DropLast(w, 5) == "a";
  }

  lemma RawNameOfBzExample()
    ensures ExtractRawName("a.bz9.bz2", "d/a.bz9.bz2") == "a"
  {
    var q := "d/a.bz9.bz2";
    EndsWithExcludes(q, "bz2", ".gz", 3);
    assert "a.bz9.bz2"[5..] == ".bz2";
    assert "a.bz9"[1..] == ".bz9";
  }

  /** Python's `a // b`, which rounds toward minus infinity. */
  function FloorDiv(a: int, b: int): (q: int)
    requires b != 0
    ensures b > 0 ==> q * b <= a < q * b + b
    ensures b < 0 ==> q * b >= a > q * b + b
  {
    if b > 0 then a / b else (-a) / (-b)
  }

  /** Why `_get_piece_info` raises: a zero piece length, or a negative index past the front. */
  datatype PieceFault = ZeroPieceLength | PieceIndexOutOfRange

  datatype PieceLookup = NoPiece | Piece(index: int, hash: seq<byte>) | PieceError(fault: PieceFault)

  /** `_get_piece_info`: the piece holding the file's first byte. A negative index (a
      negative offset) reads from the end of the list, as Python does. */
  function GetPieceInfo(tf: TorrentFile, pieces: seq<seq<byte>>, pieceLength: int): PieceLookup {
    if tf.length.None? then NoPiece
    else if pieceLength == 0 then PieceError(ZeroPieceLength)
    else
      var i := FloorDiv(tf.offset, pieceLength);
      if i >= |pieces| then NoPiece
      else if i >= 0 then Piece(i, pieces[i])
      else if i >= -|pieces| then Piece(i, pieces[|pieces| + i])
      else PieceError(PieceIndexOutOfRange)
  }

  /** With a positive piece length and a non-negative offset, a piece is found exactly when
      the length is known and the offset falls before the end of the piece list, and then it
      is the piece whose byte range holds the offset. */
  lemma PieceInfoBounds(tf: TorrentFile, pieces: seq<seq<byte>>, pieceLength: int)
    requires pieceLength > 0 && tf.offset >= 0
    ensures GetPieceInfo(tf, pieces, pieceLength).PieceError? == false
    ensures GetPieceInfo(tf, pieces, pieceLength).Piece? <==> tf.length.Some? && tf.offset < |pieces| * pieceLength
    ensures match GetPieceInfo(tf, pieces, pieceLength)
      case Piece(i, h) =>
        0 <= i < |pieces| && h == pieces[i] && i * pieceLength <= tf.offset < (i + 1) * pieceLength
      case _ => true
  {
    var i := FloorDiv(tf.offset, pieceLength);
    assert i == tf.offset / pieceLength >= 0;
    assert (i + 1) * pieceLength == i * pieceLength + pieceLength;
    if i >= |pieces| {
      MulLe(|pieces|, i, pieceLength);
    } else {
      MulLe(i + 1, |pieces|, pieceLength);
    }
  }

  /** Multiplying by a positive factor keeps the order. */
  lemma MulLe(a: int, b: int, k: int)
    requires 0 < k && a <= b
    ensures a * k <= b * k
  {
    assert b * k - a * k == (b - a) * k;
  }

  /** `"sha256" if meta.version in {"v2", "hybrid"} else "sha1"` */
  function HashAlgo(version: Version): (r: string)
    ensures r == "sha256" <==> version == V2 || version == Hybrid
    ensures r == "sha1" <==> version.V1?
  {
    if version == V2 || version == Hybrid then "sha256" else "sha1"
  }

  // ---------------------------------------------------------------- attempts

  /** The options of `recover` and what it finds on disk. */
  datatype Context = Context(
    meta: TorrentMeta,
    partialIndex: Index,
    rawIndex: Index,
    /** `target_dir / meta.name` */
    outRoot: string,
    overwrite: bool,
    dryRun: bool,
    /** `dst.exists()`, as the destination tree stood when `recover` started */
    dstExists: string -> bool,
    env: Env)

  /** `if not dry_run and dst.exists() and overwrite: dst.unlink()` */
  function ReplaceEffects(dst: string, ctx: Context): seq<Effect> {
    if !ctx.dryRun && ctx.dstExists(dst) && ctx.overwrite then [Unlink(dst)] else []
  }

  /** `copy_file`: nothing on a dry run. */
  function CopyEffects(src: string, dst: string, dryRun: bool): seq<Effect> {
    if dryRun then [] else [MakeDirs(Parent(dst)), CopyFile(src, dst)]
  }

  /** Writing a matched candidate: the parent directory is made even on a dry run. */
  function WriteEffects(dst: string, data: seq<byte>, ctx: Context): seq<Effect> {
    ReplaceEffects(dst, ctx) + [MakeDirs(Parent(dst))] + (if ctx.dryRun then [] else [WriteFile(dst, data)])
  }

  /** `_try_partial_recovery`: the chosen partial file, when it holds a whole first piece
      whose SHA-1 is the target (SHA-1 whatever the torrent version). */
  function PartialMatch(tf: TorrentFile, expectedName: string, target: seq<byte>, ctx: Context): (r: Option<FileEntry>)
    ensures r.Some? ==> r.value in Lookup(ctx.partialIndex, expectedName)
    ensures r.Some? ==> ChooseCandidate(Lookup(ctx.partialIndex, expectedName), tf.length) == Some(r.value)
    ensures r.Some? ==> Size(r.value) >= ctx.meta.pieceLength && ctx.env.sha1(Prefix(r.value.content, ctx.meta.pieceLength)) == target
    ensures var c := ChooseCandidate(Lookup(ctx.partialIndex, expectedName), tf.length);
      r.None? <==> (c.None? || !(Size(c.value) >= ctx.meta.pieceLength && ctx.env.sha1(Prefix(c.value.content, ctx.meta.pieceLength)) == target))
  {
    match ChooseCandidate(Lookup(ctx.partialIndex, expectedName), tf.length)
    case None => None
    case Some(chosen) =>
      if Size(chosen) >= ctx.meta.pieceLength && ctx.env.sha1(Prefix(chosen.content, ctx.meta.pieceLength)) == target
      then Some(chosen)
      else None
  }

  /** A header parsed from a partial file, of the format its name says. */
  datatype Header =
    | GzHeader(gz: Gzip.GzipHeader)
    | BzHeader(bz: Bzip2.Bzip2Header)
    | XzHeader(xz: Xz.XzHeader)
    | ZstHeader(zst: Zstd.ZstdHeader)

  /** The header is of the format's kind and can be written back by its patcher. */
  predicate Fits(fmt: Format, h: Header) {
    match fmt
    case Gz => h.GzHeader? && Gzip.Writable(h.gz)
    case Bz2 => h.BzHeader?
    case Xz => h.XzHeader? && 0 <= h.xz.flags < 0x1_0000
    case Zst => h.ZstHeader?
  }

  predicate HeaderFits(fmt: Format, header: Option<Header>) {
    header.Some? ==> Fits(fmt, header.value)
  }

  /** The header the format's own parser reads from the partial file's bytes. */
  function ParseHeader(fmt: Format, content: seq<byte>): (r: Option<Header>)
    ensures HeaderFits(fmt, r)
    ensures fmt == Gz ==> (r.Some? <==> Gzip.ParseGzipHeader(content).Some?) && (r.Some? ==> r.value.gz == Gzip.ParseGzipHeader(content).value)
    ensures fmt == Bz2 ==> (r.Some? <==> Bzip2.ParseBzip2Header(content).Some?) && (r.Some? ==> r.value.bz == Bzip2.ParseBzip2Header(content).value)
    ensures fmt == Xz ==> (r.Some? <==> Xz.ParseXzHeader(content).Some?) && (r.Some? ==> r.value.xz == Xz.ParseXzHeader(content).value)
    ensures fmt == Zst ==> (r.Some? <==> Zstd.ParseZstdHeader(content).Some?) && (r.Some? ==> r.value.zst == Zstd.ParseZstdHeader(content).value)
  {
    match fmt
    case Gz => (match Gzip.ParseGzipHeader(content) case None => None case Some(h) => Some(GzHeader(h)))
    case Bz2 => (match Bzip2.ParseBzip2Header(content) case None => None case Some(h) => Some(BzHeader(h)))
    case Xz => (match Xz.ParseXzHeader(content) case None => None case Some(h) => Some(XzHeader(h)))
    case Zst => (match Zstd.ParseZstdHeader(content) case None => None case Some(h) => Some(ZstHeader(h)))
  }

  /** `_parse_header_from_partial` */
  function HeaderFromPartial(tf: TorrentFile, expectedName: string, fmt: Format, ctx: Context): (r: Option<Header>)
    ensures HeaderFits(fmt, r)
    ensures Lookup(ctx.partialIndex, expectedName) == [] ==> r.None?
    ensures var c := ChooseCandidate(Lookup(ctx.partialIndex, expectedName), tf.length);
      c.Some? ==> r == ParseHeader(fmt, c.value.content)
  {
    match ChooseCandidate(Lookup(ctx.partialIndex, expectedName), tf.length)
    case None => None
    case Some(chosen) => ParseHeader(fmt, chosen.content)
  }

  /** The candidate list of the format's `generate_*_candidates`. */
  function Candidates(fmt: Format, raw: seq<byte>, header: Option<Header>, env: Env): seq<Candidate>
    requires HeaderFits(fmt, header)
  {
    match fmt
    case Gz => Gzip.GzipCandidates(raw, if header.Some? then Some(header.value.gz) else None, env)
    case Bz2 => Bzip2.Bzip2Candidates(raw, if header.Some? then Some(header.value.bz) else None, env)
    case Xz => Xz.XzCandidates(raw, if header.Some? then Some(header.value.xz) else None, env)
    case Zst => Zstd.ZstdCandidates(raw, if header.Some? then Some(header.value.zst) else None, env)
  }

  /** The data of the first candidate, built from `raw`, whose first piece hashes to the target. */
  function MatchFrom(fmt: Format, raw: seq<byte>, header: Option<Header>, target: seq<byte>, ctx: Context): (r: Option<seq<byte>>)
    requires HeaderFits(fmt, header)
    ensures r.Some? <==> FirstMatch(Candidates(fmt, raw, header, ctx.env), target, ctx.meta.pieceLength, HashFor(ctx.env, HashAlgo(ctx.meta.version))).Some?
    ensures r.Some? ==> r.value == FirstMatch(Candidates(fmt, raw, header, ctx.env), target, ctx.meta.pieceLength, HashFor(ctx.env, HashAlgo(ctx.meta.version))).value.data
    ensures r.Some? ==>
      |r.value| >= ctx.meta.pieceLength && HashFor(ctx.env, HashAlgo(ctx.meta.version))(Prefix(r.value, ctx.meta.pieceLength)) == target
  {
    match FirstMatch(Candidates(fmt, raw, header, ctx.env), target, ctx.meta.pieceLength, HashFor(ctx.env, HashAlgo(ctx.meta.version)))
    case None => None
    case Some(c) => Some(c.data)
  }

  /** A raw file the BEP 47 step compresses: the torrent's size and SHA-1. */
  predicate Sha1Eligible(raw: FileEntry, tf: TorrentFile, env: Env) {
    tf.sha1.Some? && tf.length == Some(Size(raw)) && env.sha1(raw.content) == tf.sha1.value
  }

  /** The match `_try_sha1_match` computes from one raw file: the data of the first
      candidate built from it whose first piece hashes to the target. */
  function MatchOf(fmt: Format, header: Option<Header>, target: seq<byte>, ctx: Context): FileEntry -> Option<seq<byte>> {
    (raw: FileEntry) => if HeaderFits(fmt, header) then MatchFrom(fmt, raw.content, header, target, ctx) else None
  }

  /** The search of `_try_sha1_match` over the raw files of the right name: the first one
      with the torrent's size and SHA-1 whose candidates match. */
  function Sha1Search(raws: seq<FileEntry>, tf: TorrentFile, env: Env, matchOf: FileEntry -> Option<seq<byte>>): (r: Option<seq<byte>>)
    ensures r.Some? ==> raws != []
    decreases |raws|
  {
    if raws == [] then None
    else if Sha1Eligible(raws[0], tf, env) && matchOf(raws[0]).Some? then matchOf(raws[0])
    else Sha1Search(raws[1..], tf, env, matchOf)
  }

  /** The search fails exactly when no raw file is eligible with a matching candidate;
      otherwise its result is the match of the first such file. */
  lemma {:induction false} Sha1SearchMeaning(raws: seq<FileEntry>, tf: TorrentFile, env: Env, matchOf: FileEntry -> Option<seq<byte>>)
    ensures var r := Sha1Search(raws, tf, env, matchOf);
      && (r.None? <==> forall k :: 0 <= k < |raws| ==> !(Sha1Eligible(raws[k], tf, env) && matchOf(raws[k]).Some?))
      && (r.Some? ==> exists k :: (0 <= k < |raws| && Sha1Eligible(raws[k], tf, env) && r == matchOf(raws[k])
            && forall j :: 0 <= j < k ==> !(Sha1Eligible(raws[j], tf, env) && matchOf(raws[j]).Some?)))
    decreases |raws|
  {
    if raws != [] && !(Sha1Eligible(raws[0], tf, env) && matchOf(raws[0]).Some?) {
      var rest := raws[1..];
      Sha1SearchMeaning(rest, tf, env, matchOf);
      assert forall k :: 1 <= k < |raws| ==> raws[k] == rest[k - 1];
      var r := Sha1Search(rest, tf, env, matchOf);
      if r.Some? {
        var k :| 0 <= k < |rest| && Sha1Eligible(rest[k], tf, env) && r == matchOf(rest[k])
          && forall j :: 0 <= j < k ==> !(Sha1Eligible(rest[j], tf, env) && matchOf(rest[j]).Some?);
        assert raws[k + 1] == rest[k];
      }
    }
  }

  /** `_try_sha1_match`: nothing without a per-file SHA-1. */
  function Sha1Match(tf: TorrentFile, rawName: string, fmt: Format, header: Option<Header>, target: seq<byte>, ctx: Context): (r: Option<seq<byte>>)
    requires HeaderFits(fmt, header)
    ensures r.Some? ==> tf.sha1.Some?
  {
    if tf.sha1.None? || tf.sha1.value == [] then None
    else Sha1Search(Lookup(ctx.rawIndex, rawName), tf, ctx.env, MatchOf(fmt, header, target, ctx))
  }

  /** `_try_brute_force_recovery`: the newest raw file of the right name, compressed every way. */
  function BruteForceMatch(rawName: string, fmt: Format, header: Option<Header>, target: seq<byte>, ctx: Context): (r: Option<seq<byte>>)
    requires HeaderFits(fmt, header)
    ensures r.Some? ==> Lookup(ctx.rawIndex, rawName) != []
    ensures var c := ChooseCandidate(Lookup(ctx.rawIndex, rawName), None);
      && (c.None? ==> r.None?)
      && (c.Some? ==> r == MatchFrom(fmt, c.value.content, header, target, ctx))
  {
    match ChooseCandidate(Lookup(ctx.rawIndex, rawName), None)
    case None => None
    case Some(rawSrc) => MatchFrom(fmt, rawSrc.content, header, target, ctx)
  }

  // ---------------------------------------------------------------- recover

  /** Which counter a file adds to. */
  datatype Kind = Recovered | Gzipped | Bzipped | Xzipped | Zstipped | Skipped | Missing

  function CompressedKind(fmt: Format): Kind {
    match fmt
    case Gz => Gzipped
    case Bz2 => Bzipped
    case Xz => Xzipped
    case Zst => Zstipped
  }

  /** What the three attempts of one file found: the partial file to copy, the compressed
      bytes to write, or nothing. */
  datatype Found = FromPartial(src: FileEntry) | Compressed(data: seq<byte>) | NotFound

  /** Attempts 1 (partial file), 1a (BEP 47 SHA-1) and 2 (brute force), first success wins. */
  function Attempts(tf: TorrentFile, fmt: Format, target: seq<byte>, ctx: Context): Found {
    var expectedName := Basename(tf.relPath);
    var rawName := ExtractRawName(expectedName, tf.relPath);
    match PartialMatch(tf, expectedName, target, ctx)
    case Some(chosen) => FromPartial(chosen)
    case None =>
      var header := HeaderFromPartial(tf, expectedName, fmt, ctx);
      match Sha1Match(tf, rawName, fmt, header, target, ctx)
      case Some(data) => Compressed(data)
      case None =>
        match BruteForceMatch(rawName, fmt, header, target, ctx)
        case Some(data) => Compressed(data)
        case None => NotFound
  }

  function FoundKind(found: Found, fmt: Format): Kind {
    match found
    case FromPartial(_) => Recovered
    case Compressed(_) => CompressedKind(fmt)
    case NotFound => Missing
  }

  /** The file system changes for what was found at the destination. */
  function FoundEffects(found: Found, dst: string, ctx: Context): seq<Effect> {
    match found
    case FromPartial(src) => ReplaceEffects(dst, ctx) + CopyEffects(src.path, dst, ctx.dryRun)
    case Compressed(data) => WriteEffects(dst, data, ctx)
    case NotFound => []
  }

  /** On a dry run, whatever was found, at most the destination's directory is made. */
  lemma DryRunEffects(found: Found, dst: string, ctx: Context)
    requires ctx.dryRun
    ensures forall e :: e in FoundEffects(found, dst, ctx) ==> e == MakeDirs(Parent(dst))
  {
    assert ReplaceEffects(dst, ctx) == [];
    if found.Compressed? {
      assert FoundEffects(found, dst, ctx) == [MakeDirs(Parent(dst))];
    }
  }

  datatype Outcome = Outcome(kind: Kind, effects: seq<Effect>) | Fault(fault: PieceFault)

  /** One pass of the loop body of `recover`. */
  function ProcessFile(tf: TorrentFile, ctx: Context): Outcome {
    var dst := JoinPath(ctx.outRoot, tf.relPath);
    if ShouldSkipFile(tf, ctx.dstExists(dst), ctx.overwrite) then Outcome(Skipped, [])
    else match GetPieceInfo(tf, ctx.meta.pieces, ctx.meta.pieceLength)
      case NoPiece => Outcome(Missing, [])
      case PieceError(e) => Fault(e)
      case Piece(_, target) =>
        var fmt := FormatOf(tf.relPath).value;
        var found := Attempts(tf, fmt, target, ctx);
        Outcome(FoundKind(found, fmt), FoundEffects(found, dst, ctx))
  }

  /** A file whose path has none of the four suffixes, or that is padding, is skipped
      without effects; a fault comes only from the start-piece lookup. */
  lemma ProcessFileShape(tf: TorrentFile, ctx: Context)
    ensures IsPadding(tf.attr) || FormatOf(tf.relPath).None? ==> ProcessFile(tf, ctx) == Outcome(Skipped, [])
    ensures ProcessFile(tf, ctx).Fault? ==> GetPieceInfo(tf, ctx.meta.pieces, ctx.meta.pieceLength).PieceError?
    ensures ctx.dryRun && ProcessFile(tf, ctx).Outcome? ==>
      forall e :: e in ProcessFile(tf, ctx).effects ==> e == MakeDirs(Parent(JoinPath(ctx.outRoot, tf.relPath)))
  {
    var dst := JoinPath(ctx.outRoot, tf.relPath);
    if ctx.dryRun && !ShouldSkipFile(tf, ctx.dstExists(dst), ctx.overwrite) {
      match GetPieceInfo(tf, ctx.meta.pieces, ctx.meta.pieceLength)
      case Piece(_, target) =>
        DryRunEffects(Attempts(tf, FormatOf(tf.relPath).value, target, ctx), dst, ctx);
      case _ =>
    }
  }

  /** What the attempts found holds the file's first piece: a partial file is the chosen
      one and its first piece has the target SHA-1; compressed bytes are at least a piece
      long and their first piece has the target hash of the torrent's version. */
  predicate HoldsFirstPiece(found: Found, tf: TorrentFile, target: seq<byte>, ctx: Context) {
    var pl := ctx.meta.pieceLength;
    match found
    case FromPartial(src) =>
      ChooseCandidate(Lookup(ctx.partialIndex, Basename(tf.relPath)), tf.length) == Some(src)
      && Size(src) >= pl && ctx.env.sha1(Prefix(src.content, pl)) == target
    case Compressed(d) => |d| >= pl && HashFor(ctx.env, HashAlgo(ctx.meta.version))(Prefix(d, pl)) == target
    case NotFound => true
  }

  /** The first attempt that succeeds wins, and what it returns matches the target hash;
      nothing is found exactly when all three attempts fail. */
  lemma AttemptsMeaning(tf: TorrentFile, fmt: Format, target: seq<byte>, ctx: Context)
    ensures HoldsFirstPiece(Attempts(tf, fmt, target, ctx), tf, target, ctx)
    ensures var expectedName := Basename(tf.relPath);
      var rawName := ExtractRawName(expectedName, tf.relPath);
      var header := HeaderFromPartial(tf, expectedName, fmt, ctx);
      Attempts(tf, fmt, target, ctx).NotFound? <==>
        PartialMatch(tf, expectedName, target, ctx).None? && Sha1Match(tf, rawName, fmt, header, target, ctx).None?
        && BruteForceMatch(rawName, fmt, header, target, ctx).None?
  {
    var expectedName := Basename(tf.relPath);
    var rawName := ExtractRawName(expectedName, tf.relPath);
    var header := HeaderFromPartial(tf, expectedName, fmt, ctx);
    Sha1MatchHolds(tf, rawName, fmt, header, target, ctx);
  }

  /** The target is always an entry of the v1 `pieces` string, while a v2 or hybrid torrent
      hashes candidates with SHA-256: with 20-byte entries and 32-byte SHA-256 digests,
      neither compressing step can succeed, and only a partial file can recover the file. */
  lemma HybridNeverCompressed(tf: TorrentFile, fmt: Format, target: seq<byte>, ctx: Context)
    requires ctx.meta.version != V1
    requires |target| == 20
    requires forall d :: |ctx.env.sha256(d)| == 32
    ensures !Attempts(tf, fmt, target, ctx).Compressed?
  {
    AttemptsMeaning(tf, fmt, target, ctx);
  }

  /** The BEP 47 step returns bytes whose first piece has the target hash. */
  lemma Sha1MatchHolds(tf: TorrentFile, rawName: string, fmt: Format, header: Option<Header>, target: seq<byte>, ctx: Context)
    requires HeaderFits(fmt, header)
    ensures var r := Sha1Match(tf, rawName, fmt, header, target, ctx);
      r.Some? ==>
        |r.value| >= ctx.meta.pieceLength && HashFor(ctx.env, HashAlgo(ctx.meta.version))(Prefix(r.value, ctx.meta.pieceLength)) == target
  {
    var s := Sha1Match(tf, rawName, fmt, header, target, ctx);
    if s.Some? {
      var raws := Lookup(ctx.rawIndex, rawName);
      var m := MatchOf(fmt, header, target, ctx);
      Sha1SearchMeaning(raws, tf, ctx.env, m);
      var k :| 0 <= k < |raws| && Sha1Eligible(raws[k], tf, ctx.env) && s == m(raws[k]);
      assert s == MatchFrom(fmt, raws[k].content, header, target, ctx);
    }
  }

  /** The effects that write or copy a file carry its first piece: written bytes are at
      least a piece long and their first piece hashes to the target; a copy reads `chosen`,
      whose first piece has the target SHA-1. */
  predicate EffectsCarryPiece(effects: seq<Effect>, chosen: Option<FileEntry>, target: seq<byte>, ctx: Context) {
    var pl := ctx.meta.pieceLength;
    forall e :: e in effects ==>
      && (e.WriteFile? ==> |e.data| >= pl && HashFor(ctx.env, HashAlgo(ctx.meta.version))(Prefix(e.data, pl)) == target)
      && (e.CopyFile? ==>
            chosen.Some? && e.src == chosen.value.path
            && Size(chosen.value) >= pl && ctx.env.sha1(Prefix(chosen.value.content, pl)) == target)
  }

  lemma FoundEffectsCarryPiece(found: Found, dst: string, chosen: Option<FileEntry>, target: seq<byte>, ctx: Context)
    requires found.FromPartial? ==>
      chosen == Some(found.src) && Size(found.src) >= ctx.meta.pieceLength && ctx.env.sha1(Prefix(found.src.content, ctx.meta.pieceLength)) == target
    requires found.Compressed? ==>
      |found.data| >= ctx.meta.pieceLength && HashFor(ctx.env, HashAlgo(ctx.meta.version))(Prefix(found.data, ctx.meta.pieceLength)) == target
    ensures EffectsCarryPiece(FoundEffects(found, dst, ctx), chosen, target, ctx)
  {
    var replace := ReplaceEffects(dst, ctx);
    assert forall e :: e in replace ==> e.Unlink?;
    match found
    case FromPartial(src) =>
      var copy := CopyEffects(src.path, dst, ctx.dryRun);
      assert forall e :: e in copy ==> e.MakeDirs? || e == CopyFile(src.path, dst);
      assert FoundEffects(found, dst, ctx) == replace + copy;
    case Compressed(d) =>
      var write := [MakeDirs(Parent(dst))] + (if ctx.dryRun then [] else [WriteFile(dst, d)]);
      assert forall e :: e in write ==> e.MakeDirs? || e == WriteFile(dst, d);
      assert FoundEffects(found, dst, ctx) == replace + write;
    case NotFound =>
  }

  /** Whatever `recover` writes or copies for a file has the file's start-piece hash: the
      bytes written, or the chosen partial file the copy reads. */
  lemma ProcessFileWritesMatch(tf: TorrentFile, ctx: Context)
    ensures ProcessFile(tf, ctx).Outcome? && !GetPieceInfo(tf, ctx.meta.pieces, ctx.meta.pieceLength).Piece? ==>
      ProcessFile(tf, ctx).effects == []
    ensures ProcessFile(tf, ctx).Outcome? && GetPieceInfo(tf, ctx.meta.pieces, ctx.meta.pieceLength).Piece? ==>
      EffectsCarryPiece(ProcessFile(tf, ctx).effects, ChooseCandidate(Lookup(ctx.partialIndex, Basename(tf.relPath)), tf.length),
                        GetPieceInfo(tf, ctx.meta.pieces, ctx.meta.pieceLength).hash, ctx)
  {
    var dst := JoinPath(ctx.outRoot, tf.relPath);
    if !ShouldSkipFile(tf, ctx.dstExists(dst), ctx.overwrite) {
      match GetPieceInfo(tf, ctx.meta.pieces, ctx.meta.pieceLength)
      case Piece(_, target) =>
        var fmt := FormatOf(tf.relPath).value;
        AttemptsMeaning(tf, fmt, target, ctx);
        FoundEffectsCarryPiece(Attempts(tf, fmt, target, ctx), dst, ChooseCandidate(Lookup(ctx.partialIndex, Basename(tf.relPath)), tf.length), target, ctx);
      case _ =>
    }
  }

  /** The attempts never read the dry-run flag. */
  lemma AttemptsIgnoreDryRun(tf: TorrentFile, fmt: Format, target: seq<byte>, ctx: Context, dryRun: bool)
    ensures Attempts(tf, fmt, target, ctx.(dryRun := dryRun)) == Attempts(tf, fmt, target, ctx)
  {
    var ctx' := ctx.(dryRun := dryRun);
    var expectedName := Basename(tf.relPath);
    var rawName := ExtractRawName(expectedName, tf.relPath);
    var header := HeaderFromPartial(tf, expectedName, fmt, ctx);
    assert PartialMatch(tf, expectedName, target, ctx') == PartialMatch(tf, expectedName, target, ctx);
    assert HeaderFromPartial(tf, expectedName, fmt, ctx') == header;
    Sha1MatchIgnoresDryRun(tf, rawName, fmt, header, target, ctx, dryRun);
    BruteForceIgnoresDryRun(rawName, fmt, header, target, ctx, dryRun);
  }

  lemma Sha1MatchIgnoresDryRun(tf: TorrentFile, rawName: string, fmt: Format, header: Option<Header>, target: seq<byte>, ctx: Context, dryRun: bool)
    requires HeaderFits(fmt, header)
    ensures Sha1Match(tf, rawName, fmt, header, target, ctx.(dryRun := dryRun)) == Sha1Match(tf, rawName, fmt, header, target, ctx)
  {
    var ctx' := ctx.(dryRun := dryRun);
    forall raw ensures MatchOf(fmt, header, target, ctx')(raw) == MatchOf(fmt, header, target, ctx)(raw) {
      MatchFromIgnoresDryRun(fmt, raw.content, header, target, ctx, dryRun);
    }
    Sha1SearchAgree(Lookup(ctx.rawIndex, rawName), tf, ctx.env, MatchOf(fmt, header, target, ctx'), MatchOf(fmt, header, target, ctx));
  }

  lemma BruteForceIgnoresDryRun(rawName: string, fmt: Format, header: Option<Header>, target: seq<byte>, ctx: Context, dryRun: bool)
    requires HeaderFits(fmt, header)
    ensures BruteForceMatch(rawName, fmt, header, target, ctx.(dryRun := dryRun)) == BruteForceMatch(rawName, fmt, header, target, ctx)
  {
    var c := ChooseCandidate(Lookup(ctx.rawIndex, rawName), None);
    if c.Some? {
      MatchFromIgnoresDryRun(fmt, c.value.content, header, target, ctx, dryRun);
    }
  }

  lemma MatchFromIgnoresDryRun(fmt: Format, raw: seq<byte>, header: Option<Header>, target: seq<byte>, ctx: Context, dryRun: bool)
    requires HeaderFits(fmt, header)
    ensures MatchFrom(fmt, raw, header, target, ctx.(dryRun := dryRun)) == MatchFrom(fmt, raw, header, target, ctx)
  {
  }

  /** Two per-file matches that agree on every raw file give the same search. */
  lemma {:induction false} Sha1SearchAgree(raws: seq<FileEntry>, tf: TorrentFile, env: Env, m1: FileEntry -> Option<seq<byte>>, m2: FileEntry -> Option<seq<byte>>)
    requires forall raw :: m1(raw) == m2(raw)
    ensures Sha1Search(raws, tf, env, m1) == Sha1Search(raws, tf, env, m2)
    decreases |raws|
  {
    if raws != [] {
      Sha1SearchAgree(raws[1..], tf, env, m1, m2);
    }
  }

  /** An outcome with its effects dropped: what the counters see. */
  function Tally(o: Outcome): Outcome {
    if o.Fault? then o else Outcome(o.kind, [])
  }

  /** A file counts the same on a dry run as on a real one, and faults the same way. */
  lemma ProcessFileIgnoresDryRun(tf: TorrentFile, ctx: Context)
    ensures Tally(ProcessFile(tf, ctx.(dryRun := true))) == Tally(ProcessFile(tf, ctx.(dryRun := false)))
  {
    var dst := JoinPath(ctx.outRoot, tf.relPath);
    if !ShouldSkipFile(tf, ctx.dstExists(dst), ctx.overwrite) {
      match GetPieceInfo(tf, ctx.meta.pieces, ctx.meta.pieceLength)
      case Piece(_, target) =>
        var fmt := FormatOf(tf.relPath).value;
        AttemptsIgnoreDryRun(tf, fmt, target, ctx, true);
        AttemptsIgnoreDryRun(tf, fmt, target, ctx, false);
      case _ =>
    }
  }

  /** The `Result` of `recover`. */
  datatype RecoveryCounts = RecoveryCounts(recovered: nat, gzipped: nat, bzipped: nat, xzipped: nat, zstipped: nat, skipped: nat, missing: nat)

  function Total(c: RecoveryCounts): nat {
    c.recovered + c.gzipped + c.bzipped + c.xzipped + c.zstipped + c.skipped + c.missing
  }

  /** `<counter> += 1` for the file's kind. */
  function Count(c: RecoveryCounts, k: Kind): (r: RecoveryCounts)
    ensures Total(r) == Total(c) + 1
  {
    RecoveryCounts(c.recovered + Tick(k, Recovered), c.gzipped + Tick(k, Gzipped), c.bzipped + Tick(k, Bzipped),
                   c.xzipped + Tick(k, Xzipped), c.zstipped + Tick(k, Zstipped), c.skipped + Tick(k, Skipped),
                   c.missing + Tick(k, Missing))
  }

  /** 1 for the counter of the file's kind, 0 for the others. */
  function Tick(k: Kind, counter: Kind): nat {
    if k == counter then 1 else 0
  }

  /** The counter a kind of file adds to. */
  function Counter(c: RecoveryCounts, k: Kind): nat {
    match k
    case Recovered => c.recovered
    case Gzipped => c.gzipped
    case Bzipped => c.bzipped
    case Xzipped => c.xzipped
    case Zstipped => c.zstipped
    case Skipped => c.skipped
    case Missing => c.missing
  }

  /** Counting a file adds one to its kind's counter and leaves the other six alone. */
  lemma CountTicks(c: RecoveryCounts, k: Kind, other: Kind)
    ensures Counter(Count(c, k), k) == Counter(c, k) + 1
    ensures other != k ==> Counter(Count(c, k), other) == Counter(c, other)
  {
  }

  const NO_COUNTS := RecoveryCounts(0, 0, 0, 0, 0, 0, 0)

  type Run = (Result<RecoveryCounts, PieceFault>, seq<Effect>)

  /** The run so far, extended by one file's outcome; a fault ends the run. */
  function Step(run: Run, o: Outcome): Run {
    if run.0.Err? then run
    else match o
      case Fault(e) => (Err(e), run.1)
      case Outcome(k, more) => (Ok(Count(run.0.value, k)), run.1 + more)
  }

  /** The counters and effects after the outcomes in order. */
  function Fold(os: seq<Outcome>): Run
    decreases |os|
  {
    if os == [] then (Ok(NO_COUNTS), []) else Step(Fold(os[..|os| - 1]), os[|os| - 1])
  }

  /** Each file's outcome, in torrent order. */
  function Outcomes(files: seq<TorrentFile>, ctx: Context): (os: seq<Outcome>)
    ensures |os| == |files|
  {
    seq(|files|, k requires 0 <= k < |files| => ProcessFile(files[k], ctx))
  }

  function RunFiles(files: seq<TorrentFile>, ctx: Context): Run {
    Fold(Outcomes(files, ctx))
  }

  function RecoverContext(meta: TorrentMeta, rawDir: Root, partialDir: Root, targetDir: string, overwrite: bool, dryRun: bool,
                          dstExists: string -> bool, env: Env): Context {
    Context(meta, AddAll(map[], IndexedFiles([partialDir])), AddAll(map[], IndexedFiles([rawDir])),
            JoinPath(targetDir, meta.name), overwrite, dryRun, dstExists, env)
  }

  /** Each outcome adds exactly one to exactly one counter. */
  lemma {:induction false} FoldTotal(os: seq<Outcome>)
    ensures Fold(os).0.Ok? ==> Total(Fold(os).0.value) == |os|
    decreases |os|
  {
    if os != [] {
      var init := os[..|os| - 1];
      FoldTotal(init);
      if Fold(os).0.Ok? {
        StepTotal(Fold(init), os[|os| - 1]);
      }
    }
  }

  /** A step that leaves the run unfaulted adds one to the counters. */
  lemma StepTotal(run: Run, o: Outcome)
    requires Step(run, o).0.Ok?
    ensures run.0.Ok? && Total(Step(run, o).0.value) == Total(run.0.value) + 1
  {
  }

  /** Effects accumulate outcome by outcome. */
  lemma {:induction false} FoldEffects(os: seq<Outcome>)
    ensures forall e :: e in Fold(os).1 ==> exists k :: 0 <= k < |os| && os[k].Outcome? && e in os[k].effects
    decreases |os|
  {
    if os != [] {
      var init := os[..|os| - 1];
      FoldEffects(init);
      forall e | e in Fold(os).1
        ensures exists k :: 0 <= k < |os| && os[k].Outcome? && e in os[k].effects
      {
        if e in Fold(init).1 {
          var k :| 0 <= k < |init| && init[k].Outcome? && e in init[k].effects;
          assert os[k] == init[k];
        } else {
          assert os[|os| - 1].Outcome? && e in os[|os| - 1].effects;
        }
      }
    }
  }

  /** The run is a fault only when some outcome is. */
  lemma {:induction false} FoldOk(os: seq<Outcome>)
    requires forall k :: 0 <= k < |os| ==> os[k].Outcome?
    ensures Fold(os).0.Ok?
    decreases |os|
  {
    if os != [] {
      FoldOk(os[..|os| - 1]);
    }
  }

  /** In `recover` every file adds one to exactly one counter, so recovered + gzipped +
      bzipped + xzipped + zstipped + skipped + missing is the number of files. */
  lemma CountersSumToFiles(files: seq<TorrentFile>, ctx: Context)
    requires RunFiles(files, ctx).0.Ok?
    ensures Total(RunFiles(files, ctx).0.value) == |files|
  {
    FoldTotal(Outcomes(files, ctx));
  }

  /** Outcomes that tally alike give the same counters, or the same fault. */
  lemma {:induction false} FoldTally(os1: seq<Outcome>, os2: seq<Outcome>)
    requires |os1| == |os2|
    requires forall k :: 0 <= k < |os1| ==> Tally(os1[k]) == Tally(os2[k])
    ensures Fold(os1).0 == Fold(os2).0
    decreases |os1|
  {
    if os1 != [] {
      FoldTally(os1[..|os1| - 1], os2[..|os2| - 1]);
      assert Tally(os1[|os1| - 1]) == Tally(os2[|os2| - 1]);
    }
  }

  /** A dry run reports the same counters as a real run, or fails with the same fault. */
  lemma DryRunSameCounts(files: seq<TorrentFile>, ctx: Context)
    ensures RunFiles(files, ctx.(dryRun := true)).0 == RunFiles(files, ctx.(dryRun := false)).0
  {
    var os1 := Outcomes(files, ctx.(dryRun := true));
    var os2 := Outcomes(files, ctx.(dryRun := false));
    forall k | 0 <= k < |files|
      ensures Tally(os1[k]) == Tally(os2[k])
    {
      ProcessFileIgnoresDryRun(files[k], ctx);
    }
    FoldTally(os1, os2);
  }

  /** A dry run copies, writes and unlinks nothing; it only makes destination directories. */
  lemma DryRunOnlyMakesDirs(files: seq<TorrentFile>, ctx: Context)
    requires ctx.dryRun
    ensures forall e :: e in RunFiles(files, ctx).1 ==> e.MakeDirs?
  {
    var os := Outcomes(files, ctx);
    FoldEffects(os);
    forall e | e in Fold(os).1
      ensures e.MakeDirs?
    {
      var k :| 0 <= k < |os| && os[k].Outcome? && e in os[k].effects;
      DryRunFileEffects(files[k], ctx, os[k]);
    }
  }

  lemma DryRunFileEffects(tf: TorrentFile, ctx: Context, o: Outcome)
    requires ctx.dryRun && o == ProcessFile(tf, ctx) && o.Outcome?
    ensures forall e :: e in o.effects ==> e.MakeDirs?
  {
    ProcessFileShape(tf, ctx);
  }

  /** With a positive piece length and offsets that are not negative, `recover` never raises. */
  lemma NoFaultOnSaneOffsets(files: seq<TorrentFile>, ctx: Context)
    requires ctx.meta.pieceLength > 0
    requires forall k :: 0 <= k < |files| ==> files[k].offset >= 0
    ensures RunFiles(files, ctx).0.Ok?
  {
    var os := Outcomes(files, ctx);
    forall k | 0 <= k < |files|
      ensures os[k].Outcome?
    {
      ProcessFileShape(files[k], ctx);
      PieceInfoBounds(files[k], ctx.meta.pieces, ctx.meta.pieceLength);
    }
    FoldOk(os);
  }

  /** The loop of `_try_sha1_match` over the raw files of the right name. */
  method TrySha1Match(tf: TorrentFile, rawName: string, fmt: Format, header: Option<Header>, target: seq<byte>, ctx: Context)
    returns (r: Option<seq<byte>>)
    requires HeaderFits(fmt, header)
    ensures r == Sha1Match(tf, rawName, fmt, header, target, ctx)
  {
    if tf.sha1.None? || tf.sha1.value == [] {
      return None;
    }
    var raws := Lookup(ctx.rawIndex, rawName);
    var i := 0;
    while i < |raws|
      invariant 0 <= i <= |raws|
      invariant Sha1Search(raws, tf, ctx.env, MatchOf(fmt, header, target, ctx))
        == Sha1Search(raws[i..], tf, ctx.env, MatchOf(fmt, header, target, ctx))
    {
      var rawPath := raws[i];
      assert raws[i..][1..] == raws[i + 1..];
      if tf.length == Some(Size(rawPath)) {
        var fileHash := ctx.env.sha1(rawPath.content);
        if fileHash == tf.sha1.value {
          var candidates := GenerateCandidates(fmt, rawPath.content, header, ctx.env);
          var m := FindMatchingCandidate(candidates, target, ctx.meta.pieceLength, HashAlgo(ctx.meta.version), ctx.env);
          if m.Some? {
            return Some(m.value.data);
          }
        }
      }
      i := i + 1;
    }
    return None;
  }

  /** Dispatch to the format's candidate generator. */
  method GenerateCandidates(fmt: Format, raw: seq<byte>, header: Option<Header>, env: Env) returns (cands: seq<Candidate>)
    requires HeaderFits(fmt, header)
    ensures cands == Candidates(fmt, raw, header, env)
  {
    match fmt
    case Gz => cands := Gzip.GenerateGzipCandidates(raw, if header.Some? then Some(header.value.gz) else None, env);
    case Bz2 => cands := Bzip2.GenerateBzip2Candidates(raw, if header.Some? then Some(header.value.bz) else None, env);
    case Xz => cands := Xz.GenerateXzCandidates(raw, if header.Some? then Some(header.value.xz) else None, env);
    case Zst => cands := Zstd.GenerateZstdCandidates(raw, if header.Some? then Some(header.value.zst) else None, env);
  }

  /** `_try_brute_force_recovery` */
  method TryBruteForceRecovery(rawName: string, fmt: Format, header: Option<Header>, target: seq<byte>, ctx: Context)
    returns (r: Option<seq<byte>>)
    requires HeaderFits(fmt, header)
    ensures r == BruteForceMatch(rawName, fmt, header, target, ctx)
  {
    var rawSrc := ChooseCandidate(Lookup(ctx.rawIndex, rawName), None);
    if rawSrc.None? {
      return None;
    }
    var candidates := GenerateCandidates(fmt, rawSrc.value.content, header, ctx.env);
    var m := FindMatchingCandidate(candidates, target, ctx.meta.pieceLength, HashAlgo(ctx.meta.version), ctx.env);
    if m.None? {
      return None;
    }
    return Some(m.value.data);
  }

  /** The body of the loop of `recover` for one torrent file. */
  method RecoverFile(tf: TorrentFile, ctx: Context) returns (o: Outcome)
    ensures o == ProcessFile(tf, ctx)
  {
    var dst := JoinPath(ctx.outRoot, tf.relPath);
    if ShouldSkipFile(tf, ctx.dstExists(dst), ctx.overwrite) {
      return Outcome(Skipped, []);
    }
    var pieceInfo := GetPieceInfo(tf, ctx.meta.pieces, ctx.meta.pieceLength);
    if pieceInfo.NoPiece? {
      return Outcome(Missing, []);
    }
    if pieceInfo.PieceError? {
      return Fault(pieceInfo.fault);
    }
    var fmt := FormatOf(tf.relPath).value;
    var found := RunAttempts(tf, fmt, pieceInfo.hash, ctx);
    return Outcome(FoundKind(found, fmt), FoundEffects(found, dst, ctx));
  }

  /** Attempts 1, 1a and 2 of the loop body, in that order, stopping at the first success. */
  method RunAttempts(tf: TorrentFile, fmt: Format, target: seq<byte>, ctx: Context) returns (found: Found)
    ensures found == Attempts(tf, fmt, target, ctx)
  {
    var expectedName := Basename(tf.relPath);
    var rawName := ExtractRawName(expectedName, tf.relPath);
    var partial := PartialMatch(tf, expectedName, target, ctx);
    if partial.Some? {
      return FromPartial(partial.value);
    }
    var header := HeaderFromPartial(tf, expectedName, fmt, ctx);
    var sha1Data := TrySha1Match(tf, rawName, fmt, header, target, ctx);
    if sha1Data.Some? {
      return Compressed(sha1Data.value);
    }
    var bruteData := TryBruteForceRecovery(rawName, fmt, header, target, ctx);
    if bruteData.Some? {
      return Compressed(bruteData.value);
    }
    return NotFound;
  }

  /** Once a run has faulted, later outcomes change nothing. */
  lemma {:induction false} FoldStops(os: seq<Outcome>, i: nat)
    requires i <= |os| && Fold(os[..i]).0.Err?
    ensures Fold(os) == Fold(os[..i])
    decreases |os|
  {
    if i < |os| {
      var init := os[..|os| - 1];
      assert init[..i] == os[..i];
      FoldStops(init, i);
    } else {
      assert os[..i] == os;
    }
  }

  lemma FoldSnoc(os: seq<Outcome>, i: nat)
    requires i < |os|
    ensures Fold(os[..i + 1]) == Step(Fold(os[..i]), os[i])
  {
    assert os[..i + 1][..i] == os[..i];
  }

  /** The loop of `recover` over the torrent's files; the seven counters are the fields of `counts`. */
  method RunLoop(files: seq<TorrentFile>, ctx: Context) returns (r: Result<RecoveryCounts, PieceFault>, effects: seq<Effect>)
    ensures (r, effects) == RunFiles(files, ctx)
  {
    ghost var os := Outcomes(files, ctx);
    var counts := NO_COUNTS;
    effects := [];
    for i := 0 to |files|
      invariant Fold(os[..i]) == (Ok(counts), effects)
    {
      var o := RecoverFile(files[i], ctx);
      FoldSnoc(os, i);
      assert os[i] == o;
      if o.Fault? {
        FoldStops(os, i + 1);
        r := Err(o.fault);
        return;
      }
      effects := effects + o.effects;
      counts := Count(counts, o.kind);
    }
    assert os[..|files|] == os;
    r := Ok(counts);
  }

  /** `recover`, from the parsed torrent: index both directories, then run the loop over the
      torrent's files; the counters and the effects on the file system in the order they happen. */
  method Recover(meta: TorrentMeta, rawDir: Root, partialDir: Root, targetDir: string, overwrite: bool, dryRun: bool,
                 dstExists: string -> bool, env: Env)
    returns (r: Result<RecoveryCounts, PieceFault>, effects: seq<Effect>)
    ensures (r, effects) == RunFiles(meta.files, RecoverContext(meta, rawDir, partialDir, targetDir, overwrite, dryRun, dstExists, env))
  {
    var partialIndex := BuildBasenameIndex([partialDir]);
    var rawIndex := BuildBasenameIndex([rawDir]);
    var ctx := Context(meta, partialIndex, rawIndex, JoinPath(targetDir, meta.name), overwrite, dryRun, dstExists, env);
    r, effects := RunLoop(meta.files, ctx);
  }
}
