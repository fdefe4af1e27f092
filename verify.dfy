/**
 * The verify-only mode: read the trailer or footer at the end of a compressed file that
 * was downloaded whole, and check it against the raw file it should have been made from.
 * Gzip compares the CRC-32 and length stored in the trailer (section 2.3.1 of RFC 1952);
 * xz and zstd hand the file to the decompressor; bzip2 is never checked.
 */
module Verify {
  import opened Wrappers
  import opened Bytes
  import opened Slices
  import opened Text
  import opened Platform
  import opened Bencode
  import opened Recovery

  const GZIP_TRAILER_SIZE := 8
  const XZ_FOOTER_SIZE := 12
  const XZ_FOOTER_MAGIC: seq<byte> := [0x59, 0x5a]
  const ZSTD_FRAME_FOOTER_SIZE := 4
  /** `compute_raw_crc32_and_isize` reads the raw file this many bytes at a time. */
  const CHUNK_SIZE := 8192
  const TWO_TO_32 := 0x1_0000_0000

  // ---------------------------------------------------------------- gzip trailer

  /** `read_gzip_trailer`: CRC32 and ISIZE, both little-endian, from the last 8 bytes. */
  function ReadGzipTrailer(file: seq<byte>): (r: Option<(nat, nat)>)
    ensures r.None? <==> |file| < GZIP_TRAILER_SIZE
    ensures r.Some? ==> r.value.0 < TWO_TO_32 && r.value.1 < TWO_TO_32
  {
    Pow256Values();
    if |file| < GZIP_TRAILER_SIZE then None
    else
      var trailer := file[|file| - GZIP_TRAILER_SIZE..];
      Some((FromLE(trailer[..4]), FromLE(trailer[4..])))
  }

  /** A trailer written as RFC 1952 lays it out is read back as written. */
  lemma {:induction false} GzipTrailerRoundTrip(body: seq<byte>, crc: uint32, isize: uint32)
    ensures ReadGzipTrailer(body + ToLE(crc, 4) + ToLE(isize, 4)) == Some((crc as nat, isize as nat))
  {
    Pow256Values();
    var file := body + ToLE(crc, 4) + ToLE(isize, 4);
    var trailer := file[|file| - 8..];
    assert trailer[..4] == ToLE(crc, 4);
    assert trailer[4..] == ToLE(isize, 4);
    FromToLE(crc, 4);
    FromToLE(isize, 4);
  }

  /** `zlib.crc32(data, crc)`: the running value stepped through the bytes in order. */
  function Crc32(env: Env, data: seq<byte>, crc: uint32): uint32
    decreases |data|
  {
    if data == [] then crc else env.crc32Step(Crc32(env, data[..|data| - 1], crc), data[|data| - 1])
  }

  /** Feeding the data in two pieces, the second continuing from the first's value, gives
      the same CRC as feeding it at once: why reading in chunks is sound. */
  lemma {:induction false} Crc32Concat(env: Env, a: seq<byte>, b: seq<byte>, crc: uint32)
    ensures Crc32(env, a + b, crc) == Crc32(env, b, Crc32(env, a, crc))
    decreases |b|
  {
    if b == [] {
      assert a + b == a;
    } else {
      var init := b[..|b| - 1];
      assert (a + b)[..|a + b| - 1] == a + init;
      assert (a + b)[|a + b| - 1] == b[|b| - 1];
      Crc32Concat(env, a, init, crc);
    }
  }

  /** `compute_raw_crc32_and_isize`: the chunked loop computes the CRC-32 of the whole file
      and its length modulo 2^32; the empty file gives (0, 0). */
  method ComputeRawCrc32AndIsize(raw: seq<byte>, env: Env) returns (crc: uint32, size: nat)
    ensures crc == Crc32(env, raw, 0)
    ensures size == |raw| % TWO_TO_32
    ensures raw == [] ==> crc == 0 && size == 0
  {
    crc := 0;
    var total := 0;
    var pos := 0;
    while pos < |raw|
      invariant 0 <= pos <= |raw| && total == pos
      invariant crc == Crc32(env, raw[..pos], 0)
      decreases |raw| - pos
    {
      var chunk := raw[pos..if pos + CHUNK_SIZE < |raw| then pos + CHUNK_SIZE else |raw|];
      Crc32Concat(env, raw[..pos], chunk, 0);
      assert raw[..pos] + chunk == raw[..pos + |chunk|];
      // `& 0xFFFFFFFF` leaves an unsigned 32-bit value as it is.
      crc := Crc32(env, chunk, crc);
      total := total + |chunk|;
      pos := pos + |chunk|;
    }
    assert raw[..pos] == raw;
    size := total % TWO_TO_32;
  }

  /** The gzip file's trailer records this raw file's CRC-32 and length modulo 2^32. */
  predicate GzTrailerMatches(raw: seq<byte>, gz: seq<byte>, env: Env) {
    var trailer := ReadGzipTrailer(gz);
    trailer.Some? && trailer.value == (Crc32(env, raw, 0) as nat, |raw| % TWO_TO_32)
  }

  /** `verify_raw_against_gz` */
  method VerifyRawAgainstGz(raw: seq<byte>, gz: seq<byte>, env: Env) returns (ok: bool)
    ensures ok == GzTrailerMatches(raw, gz, env)
    ensures |gz| < GZIP_TRAILER_SIZE ==> !ok
  {
    var trailer := ReadGzipTrailer(gz);
    if trailer.None? {
      return false;
    }
    var rawCrc, rawSize := ComputeRawCrc32AndIsize(raw, env);
    ok := trailer.value.0 == rawCrc && trailer.value.1 == rawSize;
  }

  /** Any gzip file that ends in the trailer a compressor writes for this raw file passes,
      whatever its other bytes are; a trailer with another CRC or length fails. */
  lemma {:induction false} GzAcceptsOwnTrailer(raw: seq<byte>, body: seq<byte>, env: Env, crc: uint32, isize: uint32)
    ensures GzTrailerMatches(raw, body + ToLE(crc, 4) + ToLE(isize, 4), env)
      <==> crc == Crc32(env, raw, 0) && isize as nat == |raw| % TWO_TO_32
  {
    GzipTrailerRoundTrip(body, crc, isize);
  }

  // ---------------------------------------------------------------- xz and zstd footers

  /** `read_xz_footer`: the last 12 bytes must end in "YZ"; the CRC32 is the first four,
      the backward size the next four plus one. */
  function ReadXzFooter(file: seq<byte>): (r: Option<(nat, nat)>)
    ensures r.None? <==> |file| < XZ_FOOTER_SIZE || file[|file| - 2..] != XZ_FOOTER_MAGIC
    ensures r.Some? ==> r.value.0 < TWO_TO_32 && 1 <= r.value.1 <= TWO_TO_32
  {
    Pow256Values();
    if |file| < XZ_FOOTER_SIZE then None
    else
      var footer := file[|file| - XZ_FOOTER_SIZE..];
      assert footer[10..] == file[|file| - 2..];
      if footer[10..] != XZ_FOOTER_MAGIC then None
      else Some((FromLE(footer[..4]), FromLE(footer[4..8]) + 1))
  }

  /** A footer laid out as the reader expects is read back; the stored size is one less. */
  lemma XzFooterRoundTrip(body: seq<byte>, crc: uint32, backwardSize: nat, flags: seq<byte>)
    requires 1 <= backwardSize <= TWO_TO_32 && |flags| == 2
    ensures ReadXzFooter(body + ToLE(crc, 4) + ToLE(backwardSize - 1, 4) + flags + XZ_FOOTER_MAGIC)
      == Some((crc as nat, backwardSize))
  {
    Pow256Values();
    var file := body + ToLE(crc, 4) + ToLE(backwardSize - 1, 4) + flags + XZ_FOOTER_MAGIC;
    var footer := file[|file| - 12..];
    assert footer[..4] == ToLE(crc, 4);
    assert footer[4..8] == ToLE(backwardSize - 1, 4);
    assert file[|file| - 2..] == XZ_FOOTER_MAGIC;
    FromToLE(crc, 4);
    FromToLE(backwardSize - 1, 4);
  }

  /** `read_zstd_footer`: the last four bytes as a little-endian checksum, and 0. */
  function ReadZstdFooter(file: seq<byte>): (r: Option<(nat, nat)>)
    ensures r.None? <==> |file| < ZSTD_FRAME_FOOTER_SIZE
    ensures r.Some? ==> r.value.0 < TWO_TO_32 && r.value.1 == 0
  {
    Pow256Values();
    if |file| < ZSTD_FRAME_FOOTER_SIZE then None
    else Some((FromLE(file[|file| - ZSTD_FRAME_FOOTER_SIZE..]), 0))
  }

  lemma {:induction false} ZstdFooterRoundTrip(body: seq<byte>, checksum: uint32)
    ensures ReadZstdFooter(body + ToLE(checksum, 4)) == Some((checksum as nat, 0))
  {
    Pow256Values();
    var file := body + ToLE(checksum, 4);
    assert file[|file| - 4..] == ToLE(checksum, 4);
    FromToLE(checksum, 4);
  }

  /** `verify_raw_against_xz` and `verify_raw_against_zst`: the decompressor run on the
      compressed file succeeds and prints exactly the raw bytes. */
  predicate DecompressesTo(tool: string, path: string, compressed: seq<byte>, raw: seq<byte>, env: Env) {
    env.run([tool, "-dc", path], compressed) == Some(raw)
  }

  // ---------------------------------------------------------------- the verify-only driver

  /** The two directories and what `is_file()` and `read_bytes()` find at a path. */
  datatype Dirs = Dirs(rawDir: string, partialDir: string, fileAt: string -> Option<seq<byte>>)

  /** The length of the suffix the raw name drops. */
  function SuffixLength(fmt: Format): nat {
    match fmt
    case Gz => 3
    case Bz2 => 4
    case Xz => 3
    case Zst => 4
  }

  /** What the format's verifier says about a raw file and a complete compressed file. */
  predicate FormatVerdict(fmt: Format, raw: seq<byte>, partialPath: string, partial: seq<byte>, env: Env) {
    match fmt
    case Gz => GzTrailerMatches(raw, partial, env)
    case Bz2 => false
    case Xz => DecompressesTo("/usr/bin/xz", partialPath, partial, raw, env)
    case Zst => DecompressesTo("/usr/bin/zstd", partialPath, partial, raw, env)
  }

  /** One pass of the loop of `verify_last_piece_against_raw`: None when the file is skipped,
      otherwise the value recorded under its file name. */
  function Verdict(tf: TorrentFile, dirs: Dirs, env: Env): Option<bool> {
    var fmt := FormatOf(tf.relPath);
    var filename := Basename(tf.relPath);
    var partialPath := JoinPath(dirs.partialDir, filename);
    var partial := dirs.fileAt(partialPath);
    if fmt.None? || partial.None? || tf.length.None? || |partial.value| < tf.length.value then None
    else if fmt.value == Bz2 then None
    else
      match dirs.fileAt(JoinPath(dirs.rawDir, DropLast(filename, SuffixLength(fmt.value))))
      case None => Some(false)
      case Some(raw) => Some(FormatVerdict(fmt.value, raw, partialPath, partial.value, env))
  }

  /** When a file is recorded, and what is recorded for it. */
  lemma VerdictRules(tf: TorrentFile, dirs: Dirs, env: Env)
    ensures Verdict(tf, dirs, env).Some? ==>
      (EndsWith(tf.relPath, ".gz") || EndsWith(tf.relPath, ".xz") || EndsWith(tf.relPath, ".zst"))
    ensures EndsWith(tf.relPath, ".bz2") ==> Verdict(tf, dirs, env).None?
    ensures Verdict(tf, dirs, env).Some? ==>
      var partial := dirs.fileAt(JoinPath(dirs.partialDir, Basename(tf.relPath)));
      partial.Some? && tf.length.Some? && |partial.value| >= tf.length.value
    ensures Verdict(tf, dirs, env).Some? && !Verdict(tf, dirs, env).value ==>
      var fmt := FormatOf(tf.relPath).value;
      var raw := dirs.fileAt(JoinPath(dirs.rawDir, DropLast(Basename(tf.relPath), SuffixLength(fmt))));
      raw.None? || !FormatVerdict(fmt, raw.value, JoinPath(dirs.partialDir, Basename(tf.relPath)),
                                   dirs.fileAt(JoinPath(dirs.partialDir, Basename(tf.relPath))).value, env)
    ensures var partial := dirs.fileAt(JoinPath(dirs.partialDir, Basename(tf.relPath)));
      ((EndsWith(tf.relPath, ".gz") || EndsWith(tf.relPath, ".xz") || EndsWith(tf.relPath, ".zst"))
       && partial.Some? && tf.length.Some? && |partial.value| >= tf.length.value)
      ==> Verdict(tf, dirs, env).Some?
    ensures Verdict(tf, dirs, env).Some? ==>
      var fmt := FormatOf(tf.relPath).value;
      var partialPath := JoinPath(dirs.partialDir, Basename(tf.relPath));
      var raw := dirs.fileAt(JoinPath(dirs.rawDir, DropLast(Basename(tf.relPath), SuffixLength(fmt))));
      && (raw.None? ==> Verdict(tf, dirs, env) == Some(false))
      && (raw.Some? ==> Verdict(tf, dirs, env) == Some(FormatVerdict(fmt, raw.value, partialPath, dirs.fileAt(partialPath).value, env)))
  {
  }

  /** What one file contributes: its name and its verdict. */
  function Entry(tf: TorrentFile, dirs: Dirs, env: Env): (string, Option<bool>) {
    (Basename(tf.relPath), Verdict(tf, dirs, env))
  }

  function Entries(files: seq<TorrentFile>, dirs: Dirs, env: Env): (es: seq<(string, Option<bool>)>)
    ensures |es| == |files|
  {
    seq(|files|, k requires 0 <= k < |files| => Entry(files[k], dirs, env))
  }

  /** The map the loop builds from the entries in order: a later entry of the same name
      overwrites an earlier one, and skipped entries change nothing. */
  function Collect(es: seq<(string, Option<bool>)>): map<string, bool>
    decreases |es|
  {
    if es == [] then map[]
    else
      var e := es[|es| - 1];
      var prev := Collect(es[..|es| - 1]);
      if e.1.None? then prev else prev[e.0 := e.1.value]
  }

  function Results(files: seq<TorrentFile>, dirs: Dirs, env: Env): map<string, bool> {
    Collect(Entries(files, dirs, env))
  }

  lemma CollectSnoc(es: seq<(string, Option<bool>)>, i: nat)
    requires i < |es|
    ensures Collect(es[..i + 1]) == if es[i].1.None? then Collect(es[..i]) else Collect(es[..i])[es[i].0 := es[i].1.value]
  {
    assert es[..i + 1][..i] == es[..i];
  }

  /** The entry records a verdict under this name. */
  predicate RecordedAs(e: (string, Option<bool>), name: string) {
    e.1.Some? && e.0 == name
  }

  /** A name is a key exactly when some entry of that name records a verdict, and its value
      is that of the last such entry. */
  lemma {:induction false} CollectLastWins(es: seq<(string, Option<bool>)>, name: string)
    ensures name in Collect(es) <==> exists i :: 0 <= i < |es| && RecordedAs(es[i], name)
    ensures name in Collect(es) ==>
      exists i :: 0 <= i < |es| && RecordedAs(es[i], name) && Collect(es)[name] == es[i].1.value
        && forall j :: i < j < |es| ==> !RecordedAs(es[j], name)
    decreases |es|
  {
    if es != [] {
      var n := |es| - 1;
      var init := es[..n];
      CollectLastWins(init, name);
      if !RecordedAs(es[n], name) {
        assert name in Collect(es) <==> name in Collect(init);
        if name in Collect(init) {
          var i :| 0 <= i < |init| && RecordedAs(init[i], name) && Collect(init)[name] == init[i].1.value
            && forall j :: i < j < |init| ==> !RecordedAs(init[j], name);
          assert es[i] == init[i];
          assert Collect(es)[name] == Collect(init)[name];
          forall j | i < j < |es|
            ensures !RecordedAs(es[j], name)
          {
            if j < n {
              assert es[j] == init[j];
            }
          }
        }
        if exists i :: 0 <= i < |es| && RecordedAs(es[i], name) {
          var i :| 0 <= i < |es| && RecordedAs(es[i], name);
          assert init[i] == es[i];
        }
      }
    }
  }

  /** In `verify_last_piece_against_raw`'s result, a file name is a key exactly when some file
      of that name gets a verdict, and its value is the last such file's verdict. */
  lemma ResultsLastWins(files: seq<TorrentFile>, dirs: Dirs, env: Env, name: string)
    ensures var es := Entries(files, dirs, env);
      name in Results(files, dirs, env) <==> exists i :: 0 <= i < |files| && RecordedAs(es[i], name)
    ensures var es := Entries(files, dirs, env);
      name in Results(files, dirs, env) ==>
        exists i :: 0 <= i < |files| && RecordedAs(es[i], name) && es[i] == Entry(files[i], dirs, env)
          && Results(files, dirs, env)[name] == Verdict(files[i], dirs, env).value
          && forall j :: i < j < |files| ==> !RecordedAs(es[j], name)
  {
    CollectLastWins(Entries(files, dirs, env), name);
  }

  /** `verify_last_piece_against_raw`, from the parsed torrent's files. */
  method VerifyLastPieceAgainstRaw(files: seq<TorrentFile>, dirs: Dirs, env: Env) returns (results: map<string, bool>)
    ensures results == Results(files, dirs, env)
  {
    ghost var es := Entries(files, dirs, env);
    results := map[];
    for i := 0 to |files|
      invariant results == Collect(es[..i])
    {
      var tf := files[i];
      CollectSnoc(es, i);
      ghost var v := Verdict(tf, dirs, env);
      assert es[i] == (Basename(tf.relPath), v);
      var fmt := FormatOf(tf.relPath);
      if fmt.None? {
        continue;
      }
      var filename := Basename(tf.relPath);
      var partialPath := JoinPath(dirs.partialDir, filename);
      var partial := dirs.fileAt(partialPath);
      if partial.None? {
        continue;
      }
      if tf.length.None? {
        continue;
      }
      if |partial.value| < tf.length.value {
        continue;
      }
      if fmt.value == Bz2 {
        continue;
      }
      var rawName := DropLast(filename, SuffixLength(fmt.value));
      var raw := dirs.fileAt(JoinPath(dirs.rawDir, rawName));
      if raw.None? {
        results := results[filename := false];
        continue;
      }
      var ok;
      match fmt.value {
        case Gz => ok := VerifyRawAgainstGz(raw.value, partial.value, env);
        case Xz => ok := DecompressesTo("/usr/bin/xz", partialPath, partial.value, raw.value, env);
        case Zst => ok := DecompressesTo("/usr/bin/zstd", partialPath, partial.value, raw.value, env);
      }
      assert v == Some(ok);
      results := results[filename := ok];
    }
    assert es[..|files|] == es;
  }
}
