/**
 * `parse_torrent` from the point where the .torrent bytes have been decoded: validation of
 * the info dictionary, the split of `pieces` into 20-byte SHA-1 hashes (BEP 3), the ordered
 * file list with running byte offsets, the BEP 47 per-file fields and the v1 / hybrid
 * classification from BEP 52 markers. The bencode decoder and UTF-8 decoding are inputs.
 */
module Bencode {
  import opened Wrappers
  import opened Bytes
  import opened Slices
  import opened Text

  /** A decoded bencode value; dictionary keys are byte strings. */
  datatype BValue =
    | BInt(i: int)
    | BBytes(b: seq<byte>)
    | BList(items: seq<BValue>)
    | BDict(entries: map<seq<byte>, BValue>)

  type Dict = map<seq<byte>, BValue>

  /** `bytes.decode("utf-8", errors="replace")`. Where a strict decode succeeds it gives the
      same text, so `_bstr`'s two attempts are this one function. */
  type Utf8 = seq<byte> -> string

  /** The reason `BencodeError` is raised. */
  datatype BencodeError =
    | DecodeFailed
    | RootNotDict
    | InfoInvalid
    | PieceLengthInvalid
    | PiecesInvalid
    | PiecesLengthInvalid
    | FilesInvalid

  datatype Version = V1 | V2 | Hybrid

  datatype TorrentFile = TorrentFile(
    relPath: string,
    length: Option<int>,
    offset: int,
    /** BEP 47 per-file SHA-1 */
    sha1: Option<seq<byte>>,
    /** BEP 47 attributes: l = link, x = executable, h = hidden, p = padding */
    attr: Option<string>,
    /** BEP 47 symlink target */
    symlinkPath: Option<seq<string>>)

  datatype TorrentMeta = TorrentMeta(
    name: string,
    files: seq<TorrentFile>,
    pieceLength: int,
    pieces: seq<seq<byte>>,
    version: Version)

  const PIECE_HASH_SIZE := 20

  /** `dct.get(key)` for an ASCII key. */
  function Get(d: Dict, key: string): (r: Option<BValue>)
    ensures r.Some? <==> Ascii(key) in d
    ensures r.Some? ==> r.value == d[Ascii(key)]
  {
    var k := Ascii(key);
    if k in d then Some(d[k]) else None
  }

  /** `_bstr`: the value under key, decoded, when it is a byte string; None otherwise. */
  function BStr(d: Dict, key: string, utf8: Utf8): (r: Option<string>)
    ensures r.Some? <==> Get(d, key).Some? && Get(d, key).value.BBytes?
    ensures r.Some? ==> r.value == utf8(Get(d, key).value.b)
  {
    match Get(d, key)
    case Some(BBytes(b)) => Some(utf8(b))
    case _ => None
  }

  /** `v if isinstance(v, int) else None` for `v = dct.get(key)`. */
  function IntField(d: Dict, key: string): (r: Option<int>)
    ensures r.Some? <==> Get(d, key).Some? && Get(d, key).value.BInt?
    ensures r.Some? ==> r.value == Get(d, key).value.i
  {
    match Get(d, key)
    case Some(BInt(i)) => Some(i)
    case _ => None
  }

  /** The BEP 47 `sha1` entry, kept only when it is a byte string of exactly 20 bytes. */
  function Sha1Field(d: Dict): (r: Option<seq<byte>>)
    ensures r.Some? <==> Get(d, "sha1").Some? && Get(d, "sha1").value.BBytes? && |Get(d, "sha1").value.b| == 20
    ensures r.Some? ==> r.value == Get(d, "sha1").value.b
  {
    match Get(d, "sha1")
    case Some(BBytes(b)) => if |b| == 20 then Some(b) else None
    case _ => None
  }

  /** `Path(p).stem`: the file name without its last suffix. A leading or trailing dot is
      not a suffix. */
  function Stem(path: string): (r: string)
    ensures |r| <= |Basename(path)| && Basename(path)[..|r|] == r
  {
    var name := Basename(path);
    var i := RFind(name, '.');
    if 0 < i < |name| - 1 then name[..i] else name
  }

  /** `_bstr(info, b"name") or Path(torrent_path).stem`: an empty name counts as missing. */
  function TorrentName(info: Dict, torrentPath: string, utf8: Utf8): (r: string)
    ensures BStr(info, "name", utf8).Some? && BStr(info, "name", utf8).value != "" ==> r == BStr(info, "name", utf8).value
    ensures BStr(info, "name", utf8).None? || BStr(info, "name", utf8).value == "" ==> r == Stem(torrentPath)
  {
    var n := BStr(info, "name", utf8);
    if n.Some? && n.value != "" then n.value else Stem(torrentPath)
  }

  /** A BEP 52 marker: `meta version` equal to 2, or a `piece layers` key. */
  predicate HasV2Marker(info: Dict) {
    Get(info, "meta version") == Some(BInt(2)) || Get(info, "piece layers").Some?
  }

  /** The version detection: v2 on a marker, demoted to hybrid when a v1 key is present too. */
  function DetectVersion(info: Dict): Version {
    if !HasV2Marker(info) then V1
    else if Get(info, "pieces").Some? || Get(info, "piece length").Some? then Hybrid
    else V2
  }

  /** `[raw[i:i + 20] for i in range(0, len(raw), 20)]` */
  function SplitPieces(raw: seq<byte>): seq<seq<byte>>
    decreases |raw|
  {
    if raw == [] then [] else [Prefix(raw, PIECE_HASH_SIZE)] + SplitPieces(Suffix(raw, PIECE_HASH_SIZE))
  }

  function Concat(pieces: seq<seq<byte>>): seq<byte>
    decreases |pieces|
  {
    if pieces == [] then [] else pieces[0] + Concat(pieces[1..])
  }

  /** A pieces string of a multiple of 20 bytes splits into len/20 hashes of 20 bytes each
      that concatenate back to the string. */
  lemma {:induction false} SplitPiecesExact(raw: seq<byte>)
    requires |raw| % PIECE_HASH_SIZE == 0
    ensures |SplitPieces(raw)| == |raw| / PIECE_HASH_SIZE
    ensures forall k :: 0 <= k < |SplitPieces(raw)| ==> |SplitPieces(raw)[k]| == PIECE_HASH_SIZE
    ensures Concat(SplitPieces(raw)) == raw
    decreases |raw|
  {
    if raw != [] {
      var rest := Suffix(raw, PIECE_HASH_SIZE);
      SplitPiecesExact(rest);
      var r := SplitPieces(raw);
      assert r[1..] == SplitPieces(rest);
      assert raw == raw[..PIECE_HASH_SIZE] + rest;
    }
  }

  /** The path components, decoded, or None when one is not a byte string. */
  function PathParts(items: seq<BValue>, utf8: Utf8): (r: Option<seq<string>>)
    ensures r.Some? <==> forall i :: 0 <= i < |items| ==> items[i].BBytes?
    ensures r.Some? ==> |r.value| == |items| && forall i :: 0 <= i < |items| ==> r.value[i] == utf8(items[i].b)
    decreases |items|
  {
    if items == [] then Some([])
    else
      var last := items[|items| - 1];
      match PathParts(items[..|items| - 1], utf8)
      case None => None
      case Some(p) => if last.BBytes? then Some(p + [utf8(last.b)]) else None
  }

  /** The decoded path of a well-formed `files` entry: a dict whose `path` is a non-empty
      list of byte strings. None marks an entry the parser drops. */
  function EntryPath(fe: BValue, utf8: Utf8): (r: Option<seq<string>>)
    ensures r.Some? ==> fe.BDict? && |r.value| > 0
  {
    if !fe.BDict? then None
    else match Get(fe.entries, "path")
      case Some(BList(items)) => if items == [] then None else PathParts(items, utf8)
      case _ => None
  }

  /** The byte-string elements of `symlink path`, decoded; other elements are skipped. */
  function SymlinkParts(items: seq<BValue>, utf8: Utf8): (r: seq<string>)
    ensures |r| <= |items|
    ensures (forall i :: 0 <= i < |items| ==> items[i].BBytes?) ==> Some(r) == PathParts(items, utf8)
    decreases |items|
  {
    if items == [] then []
    else
      var last := items[|items| - 1];
      SymlinkParts(items[..|items| - 1], utf8) + (if last.BBytes? then [utf8(last.b)] else [])
  }

  /** `symlink path`, present exactly when that key holds a list. */
  function SymlinkField(d: Dict, utf8: Utf8): (r: Option<seq<string>>)
    ensures r.Some? <==> Get(d, "symlink path").Some? && Get(d, "symlink path").value.BList?
  {
    match Get(d, "symlink path")
    case Some(BList(items)) => Some(SymlinkParts(items, utf8))
    case _ => None
  }

  /** The record of an accepted entry at the given offset. */
  function EntryFile(fe: Dict, parts: seq<string>, offset: int, utf8: Utf8): TorrentFile {
    TorrentFile(Join(parts, "/"), IntField(fe, "length"), offset, Sha1Field(fe), BStr(fe, "attr", utf8), SymlinkField(fe, utf8))
  }

  /** `offset += length or 0` */
  function Advance(offset: int, length: Option<int>): int {
    offset + (if length.Some? then length.value else 0)
  }

  /** The offset after the last file: where the next accepted entry starts. */
  function EndOffset(files: seq<TorrentFile>): int {
    if files == [] then 0 else Advance(files[|files| - 1].offset, files[|files| - 1].length)
  }

  /** The files of a multi-file torrent, entry by entry, malformed entries dropped. */
  function FileList(entries: seq<BValue>, utf8: Utf8): seq<TorrentFile>
    decreases |entries|
  {
    if entries == [] then []
    else
      var prev := FileList(entries[..|entries| - 1], utf8);
      var fe := entries[|entries| - 1];
      match EntryPath(fe, utf8)
      case None => prev
      case Some(parts) => prev + [EntryFile(fe.entries, parts, EndOffset(prev), utf8)]
  }

  /** The single file of a torrent without a `files` key. */
  function SingleFile(info: Dict, name: string, utf8: Utf8): TorrentFile {
    TorrentFile(name, IntField(info, "length"), 0, Sha1Field(info), BStr(info, "attr", utf8), None)
  }

  /** Validation of the info dictionary, then the metadata. */
  function InfoToMeta(info: Dict, torrentPath: string, utf8: Utf8): Result<TorrentMeta, BencodeError> {
    var name := TorrentName(info, torrentPath, utf8);
    var version := DetectVersion(info);
    match Get(info, "piece length")
    case Some(BInt(pieceLength)) =>
      (match Get(info, "pieces")
       case Some(BBytes(raw)) =>
         if |raw| % PIECE_HASH_SIZE != 0 then Err(PiecesLengthInvalid)
         else
           (match Get(info, "files")
            case None => Ok(TorrentMeta(name, [SingleFile(info, name, utf8)], pieceLength, SplitPieces(raw), version))
            case Some(BList(entries)) => Ok(TorrentMeta(name, FileList(entries, utf8), pieceLength, SplitPieces(raw), version))
            case Some(_) => Err(FilesInvalid))
       case _ => Err(PiecesInvalid))
    case _ => Err(PieceLengthInvalid)
  }

  /** `parse_torrent` on the decoder's output (None when `bencodepy.decode` raises). */
  function TorrentFromTree(decoded: Option<BValue>, torrentPath: string, utf8: Utf8): Result<TorrentMeta, BencodeError> {
    if decoded.None? then Err(DecodeFailed)
    else if !decoded.value.BDict? then Err(RootNotDict)
    else match Get(decoded.value.entries, "info")
      case Some(BDict(info)) => InfoToMeta(info, torrentPath, utf8)
      case _ => Err(InfoInvalid)
  }

  /** The info dictionary of a decoded torrent, when there is one. */
  function InfoOf(decoded: Option<BValue>): Option<Dict> {
    if decoded.Some? && decoded.value.BDict? then
      match Get(decoded.value.entries, "info")
      case Some(BDict(info)) => Some(info)
      case _ => None
    else None
  }

  /** Every check, in the order the parser makes them, with the error each one raises. */
  lemma ParseErrors(decoded: Option<BValue>, torrentPath: string, utf8: Utf8)
    ensures decoded.None? ==> TorrentFromTree(decoded, torrentPath, utf8) == Err(DecodeFailed)
    ensures decoded.Some? && !decoded.value.BDict? ==> TorrentFromTree(decoded, torrentPath, utf8) == Err(RootNotDict)
    ensures decoded.Some? && decoded.value.BDict? && InfoOf(decoded).None? ==> TorrentFromTree(decoded, torrentPath, utf8) == Err(InfoInvalid)
    ensures InfoOf(decoded).Some? ==> TorrentFromTree(decoded, torrentPath, utf8) == InfoToMeta(InfoOf(decoded).value, torrentPath, utf8)
  {
  }

  /** The info dictionary is accepted exactly when `piece length` is an int, `pieces` a byte
      string of a multiple of 20 bytes and `files`, if present, a list; otherwise the first
      failing check names the error and no file list exists. */
  lemma InfoErrors(info: Dict, torrentPath: string, utf8: Utf8)
    ensures IntField(info, "piece length").None? ==> InfoToMeta(info, torrentPath, utf8) == Err(PieceLengthInvalid)
    ensures IntField(info, "piece length").Some? && !(Get(info, "pieces").Some? && Get(info, "pieces").value.BBytes?)
      ==> InfoToMeta(info, torrentPath, utf8) == Err(PiecesInvalid)
    ensures IntField(info, "piece length").Some? && Get(info, "pieces").Some? && Get(info, "pieces").value.BBytes?
            && |Get(info, "pieces").value.b| % PIECE_HASH_SIZE != 0
      ==> InfoToMeta(info, torrentPath, utf8) == Err(PiecesLengthInvalid)
    ensures InfoToMeta(info, torrentPath, utf8).Ok? <==>
      IntField(info, "piece length").Some? && Get(info, "pieces").Some? && Get(info, "pieces").value.BBytes?
      && |Get(info, "pieces").value.b| % PIECE_HASH_SIZE == 0
      && (Get(info, "files").None? || Get(info, "files").value.BList?)
  {
  }

  /** A successful parse is "v1" or "hybrid", never "v2": the mandatory `piece length` key
      turns every v2 marker into "hybrid". */
  lemma NeverV2(info: Dict, torrentPath: string, utf8: Utf8)
    requires InfoToMeta(info, torrentPath, utf8).Ok?
    ensures InfoToMeta(info, torrentPath, utf8).value.version != V2
    ensures InfoToMeta(info, torrentPath, utf8).value.version == Hybrid <==> HasV2Marker(info)
    ensures InfoToMeta(info, torrentPath, utf8).value.version == V1 <==> !HasV2Marker(info)
  {
  }

  /** The pieces of a parsed torrent are 20-byte hashes that concatenate to `pieces`. */
  lemma ParsedPieces(info: Dict, torrentPath: string, utf8: Utf8)
    requires InfoToMeta(info, torrentPath, utf8).Ok?
    ensures Get(info, "pieces").Some? && Get(info, "pieces").value.BBytes?
    ensures var raw := Get(info, "pieces").value.b;
      var pieces := InfoToMeta(info, torrentPath, utf8).value.pieces;
      |pieces| == |raw| / PIECE_HASH_SIZE && Concat(pieces) == raw
      && forall k :: 0 <= k < |pieces| ==> |pieces[k]| == PIECE_HASH_SIZE
  {
    SplitPiecesExact(Get(info, "pieces").value.b);
  }

  /** Without a `files` key there is exactly one file: the torrent itself, at offset 0. */
  lemma SingleFileTorrent(info: Dict, torrentPath: string, utf8: Utf8)
    requires InfoToMeta(info, torrentPath, utf8).Ok?
    requires Get(info, "files").None?
    ensures var m := InfoToMeta(info, torrentPath, utf8).value;
      |m.files| == 1 && m.files[0].relPath == m.name && m.files[0].offset == 0
      && m.files[0].length == IntField(info, "length") && m.files[0].symlinkPath.None?
  {
  }

  /** Offsets are cumulative: the first file starts at 0 and each next one where the
      previous one ends (its length, or 0 when the length is missing). */
  lemma {:induction false} OffsetsCumulative(entries: seq<BValue>, utf8: Utf8)
    ensures var files := FileList(entries, utf8);
      (|files| > 0 ==> files[0].offset == 0)
      && forall k :: 0 <= k < |files| - 1 ==> files[k + 1].offset == Advance(files[k].offset, files[k].length)
    decreases |entries|
  {
    if entries != [] {
      OffsetsCumulative(entries[..|entries| - 1], utf8);
    }
  }

  /** The entries the parser keeps, in their order. */
  function Survivors(entries: seq<BValue>, utf8: Utf8): (r: seq<BValue>)
    ensures |r| <= |entries|
    ensures forall k :: 0 <= k < |r| ==> EntryPath(r[k], utf8).Some?
    ensures forall e :: e in r ==> e in entries
    ensures forall e :: e in entries && EntryPath(e, utf8).Some? ==> e in r
    decreases |entries|
  {
    if entries == [] then []
    else
      var last := entries[|entries| - 1];
      Survivors(entries[..|entries| - 1], utf8) + (if EntryPath(last, utf8).Some? then [last] else [])
  }

  /** Filtering a list in two parts gives the two filtered parts in the same order: the
      kept entries keep their relative order. */
  lemma {:induction false} SurvivorsAppend(a: seq<BValue>, b: seq<BValue>, utf8: Utf8)
    ensures Survivors(a + b, utf8) == Survivors(a, utf8) + Survivors(b, utf8)
    decreases |b|
  {
    if b != [] {
      var init := b[..|b| - 1];
      var last := b[|b| - 1];
      assert (a + b)[..|a + b| - 1] == a + init;
      SurvivorsAppend(a, init, utf8);
    } else {
      assert a + b == a;
    }
  }

  /** Dropping the malformed entries beforehand changes nothing: they add no file and do not
      advance the offset. */
  lemma {:induction false} SurvivorsDecide(entries: seq<BValue>, utf8: Utf8)
    ensures FileList(entries, utf8) == FileList(Survivors(entries, utf8), utf8)
    decreases |entries|
  {
    if entries != [] {
      var init := entries[..|entries| - 1];
      var last := entries[|entries| - 1];
      SurvivorsDecide(init, utf8);
      var s := Survivors(init, utf8);
      if EntryPath(last, utf8).Some? {
        assert Survivors(entries, utf8) == s + [last];
        assert (s + [last])[..|s|] == s;
        var f := EntryFile(last.entries, EntryPath(last, utf8).value, EndOffset(FileList(init, utf8)), utf8);
        assert FileList(entries, utf8) == FileList(init, utf8) + [f];
        assert FileList(s + [last], utf8) == FileList(s, utf8) + [f];
      } else {
        assert Survivors(entries, utf8) == s + [] == s;
        assert FileList(entries, utf8) == FileList(init, utf8);
      }
    }
  }

  /** Over well-formed entries only, there is one file per entry, and its `rel_path` is the
      entry's path joined with "/". */
  lemma {:induction false} FilesOfSurvivors(ss: seq<BValue>, utf8: Utf8)
    requires forall k :: 0 <= k < |ss| ==> EntryPath(ss[k], utf8).Some?
    ensures |FileList(ss, utf8)| == |ss|
    ensures forall k :: 0 <= k < |ss| ==> FileList(ss, utf8)[k].relPath == Join(EntryPath(ss[k], utf8).value, "/")
    decreases |ss|
  {
    if ss != [] {
      FilesOfSurvivors(ss[..|ss| - 1], utf8);
    }
  }

  /** Each file of a multi-file torrent comes from a well-formed entry, in entry order:
      file k is the k-th surviving entry, its `rel_path` that entry's path joined with "/". */
  lemma {:induction false} RelPaths(entries: seq<BValue>, utf8: Utf8)
    ensures |FileList(entries, utf8)| == |Survivors(entries, utf8)|
    ensures forall k :: 0 <= k < |FileList(entries, utf8)| ==>
      FileList(entries, utf8)[k].relPath == Join(EntryPath(Survivors(entries, utf8)[k], utf8).value, "/")
  {
    SurvivorsDecide(entries, utf8);
    FilesOfSurvivors(Survivors(entries, utf8), utf8);
  }

  /** Every kept per-file SHA-1 is 20 bytes long. */
  lemma {:induction false} FileSha1Sizes(entries: seq<BValue>, utf8: Utf8)
    ensures forall f :: f in FileList(entries, utf8) && f.sha1.Some? ==> |f.sha1.value| == 20
    decreases |entries|
  {
    if entries != [] {
      FileSha1Sizes(entries[..|entries| - 1], utf8);
    }
  }

  /** The inner loop over a `path` list: decode each component, give up at the first one
      that is not a byte string. */
  method DecodePathParts(parts: seq<BValue>, utf8: Utf8) returns (r: Option<seq<string>>)
    ensures r == PathParts(parts, utf8)
  {
    var p: seq<string> := [];
    var i := 0;
    while i < |parts|
      invariant 0 <= i <= |parts|
      invariant PathParts(parts[..i], utf8) == Some(p)
    {
      var part := parts[i];
      if !part.BBytes? {
        return None;
      }
      assert parts[..i + 1][..i] == parts[..i];
      p := p + [utf8(part.b)];
      i := i + 1;
    }
    assert parts[..|parts|] == parts;
    return Some(p);
  }

  /** The loop over `symlink path`: non-byte-string elements are skipped. */
  method DecodeSymlinkPath(fe: Dict, utf8: Utf8) returns (r: Option<seq<string>>)
    ensures r == SymlinkField(fe, utf8)
  {
    var symlinkParts := Get(fe, "symlink path");
    if !(symlinkParts.Some? && symlinkParts.value.BList?) {
      return None;
    }
    var items := symlinkParts.value.items;
    var path: seq<string> := [];
    for i := 0 to |items|
      invariant path == SymlinkParts(items[..i], utf8)
    {
      assert items[..i + 1][..i] == items[..i];
      if items[i].BBytes? {
        path := path + [utf8(items[i].b)];
      }
    }
    assert items[..|items|] == items;
    return Some(path);
  }

  /** The loop over `files`: each well-formed entry is appended at the running offset. */
  method ParseFileEntries(fentries: seq<BValue>, utf8: Utf8) returns (files: seq<TorrentFile>, offset: int)
    ensures files == FileList(fentries, utf8)
    ensures offset == EndOffset(files)
  {
    files := [];
    offset := 0;
    for i := 0 to |fentries|
      invariant files == FileList(fentries[..i], utf8)
      invariant offset == EndOffset(files)
    {
      var fe := fentries[i];
      assert fentries[..i + 1][..i] == fentries[..i];
      if !fe.BDict? {
        continue;
      }
      var plen := Get(fe.entries, "length");
      var length := if plen.Some? && plen.value.BInt? then Some(plen.value.i) else None;
      var parts := Get(fe.entries, "path");
      if !(parts.Some? && parts.value.BList?) || parts.value.items == [] {
        continue;
      }
      var p := DecodePathParts(parts.value.items, utf8);
      if p.None? {
        continue;
      }
      var sha1 := Sha1Field(fe.entries);
      var attr := BStr(fe.entries, "attr", utf8);
      var symlinkPath := DecodeSymlinkPath(fe.entries, utf8);
      files := files + [TorrentFile(Join(p.value, "/"), length, offset, sha1, attr, symlinkPath)];
      offset := offset + (if length.Some? then length.value else 0);
    }
    assert fentries[..|fentries|] == fentries;
  }

  /** `parse_torrent` after decoding: the checks in order, the version reassigned step by
      step, then the pieces and the file list. */
  method ParseTorrent(decoded: Option<BValue>, torrentPath: string, utf8: Utf8)
    returns (r: Result<TorrentMeta, BencodeError>)
    ensures r == TorrentFromTree(decoded, torrentPath, utf8)
  {
    if decoded.None? {
      return Err(DecodeFailed);
    }
    var root := decoded.value;
    if !root.BDict? {
      return Err(RootNotDict);
    }
    var infoValue := Get(root.entries, "info");
    if !(infoValue.Some? && infoValue.value.BDict?) {
      return Err(InfoInvalid);
    }
    var info := infoValue.value.entries;
    var name := TorrentName(info, torrentPath, utf8);

    var version := V1;
    if Get(info, "meta version").Some? && Get(info, "meta version") == Some(BInt(2)) {
      version := V2;
    } else if Get(info, "piece layers").Some? {
      version := V2;
    }
    if version == V2 && (Get(info, "pieces").Some? || Get(info, "piece length").Some?) {
      version := Hybrid;
    }
    assert version == DetectVersion(info);

    var pieceLength := Get(info, "piece length");
    if !(pieceLength.Some? && pieceLength.value.BInt?) {
      return Err(PieceLengthInvalid);
    }
    var piecesRaw := Get(info, "pieces");
    if !(piecesRaw.Some? && piecesRaw.value.BBytes?) {
      return Err(PiecesInvalid);
    }
    if |piecesRaw.value.b| % PIECE_HASH_SIZE != 0 {
      return Err(PiecesLengthInvalid);
    }
    var pieces := SplitPieces(piecesRaw.value.b);

    var files: seq<TorrentFile>;
    var fentries := Get(info, "files");
    if fentries.Some? {
      if !fentries.value.BList? {
        return Err(FilesInvalid);
      }
      var offset;
      files, offset := ParseFileEntries(fentries.value.items, utf8);
    } else {
      var length := IntField(info, "length");
      var sha1 := Sha1Field(info);
      var attr := BStr(info, "attr", utf8);
      files := [TorrentFile(name, length, 0, sha1, attr, None)];
    }
    return Ok(TorrentMeta(name, files, pieceLength.value.i, pieces, version));
  }
}
