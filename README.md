# torrent_compress_recovery, modelled in Dafny

This project models the core of `torrent_compress_recovery`. The tool rebuilds compressed
files (`.gz`, `.bz2`, `.xz`, `.zst`) that a BitTorrent download is missing. It works from
the torrent's metadata, a directory of raw (uncompressed) files and a directory of partial
downloads.

For every file in the torrent, `recover`:

- skips BEP 47 padding files, paths without one of the four suffixes, and destinations
  that already exist (unless overwriting);
- takes as target the entry of the torrent's `pieces` list (20-byte SHA-1 digests) for
  the piece holding the file's first byte;
- tries three sources in order, and the first whose first piece matches the target hash
  wins (`Recovery.AttemptsMeaning`):
  1. a partial download of the same name;
  2. a raw file whose BEP 47 `sha1` matches, compressed again;
  3. any raw file of the right name, compressed by brute force over compressor tools,
     levels and options.

  For gzip, xz and zstd, the candidates of steps 2 and 3 are patched to the header read
  from the partial download. For bzip2, that header only sets the level of the
  `header_match` candidate, and the bzip2 and pbzip2 runs are used as produced.
- writes or copies the winner to the target tree and counts the file in one of seven
  counters.

A partial download is always compared by SHA-1. The compressed candidates of steps 2 and 3
are hashed with SHA-256 when the torrent is v2 or hybrid, but the target is still a
20-byte `pieces` entry. So for a hybrid torrent, whose SHA-256 digests are 32 bytes, only a
partial download can recover a file (`Recovery.HybridNeverCompressed`). The model keeps
this behaviour of the source.

Next to `recover`, `verify_last_piece_against_raw` checks a complete partial download
against its raw file through the gzip trailer, or a decompression by xz or zstd. The
compressor registry maps extensions to compressor classes.

## Module layout

| Dafny module | source file | what it holds |
|---|---|---|
| `Bencode` | `bencode.py` | `parse_torrent` from the decoded bencode tree on |
| `Gzip` | `gzip.py` | parsing, patching and listing gzip headers; generating gzip candidates |
| `Bzip2` | `bz2.py` | the same, for bzip2 |
| `Xz` | `xz.py` | the same, for xz |
| `Zstd` | `zst.py` | the same, for Zstandard |
| `Matching` | all four format files | `find_matching_candidate`, which the four files define identically, and the shared tool/level loop |
| `Recovery` | `core.py` | the basename index, `choose_candidate`, the per-file rules and `recover` |
| `Verify` | `verify.py` | trailer and footer readers, the CRC-32 loop and the last-piece check |
| `Compressors` | `compressors.py` | the registry (a class whose field is the table) and `compress` |

Support modules:

- `Wrappers`: Option and Result.
- `Bytes`: little-endian integers and bit tests.
- `Slices`: Python slicing with clamped bounds, and `find`/`rfind`.
- `Text`: `Path.name`, `"/".join` and decimal digits.
- `Platform`: what the tool takes from the machine.

The machine is an `Env` value: the hash functions, a CRC-32 step, an external-command
runner, and Python's own `gzip` and `bz2` compressors, none of them interpreted. Files are
records of what `stat()` and `read_bytes()` return. Writes are recorded as a list of
effects (make a directory, copy, write, unlink) rather than performed.

Loops in the source are Dafny methods with loop invariants. Each is proved equal to a
specification function, and the properties are proved about those functions. The same
holds for the loops over files in `recover` and `verify_last_piece_against_raw`, and for
the candidate loops. Byte patching in place (`bytearray` item assignment) is done on an
`array`. The registry's dictionary is a `map` field of a class that `register_compressor`
updates.

A dry run still creates the destination's parent directory when a compressed candidate
matches. This is because `dst.parent.mkdir` is not guarded by `dry_run` in
`_try_sha1_match` and `_try_brute_force_recovery`. The model keeps this, and
`Recovery.DryRunOnlyMakesDirs` states that nothing else happens on a dry run.
`Recovery.DryRunSameCounts` states that a dry run reports the same counters as a real run.

## Model

| member | source | states |
|---|---|---|
| Bencode.BStr | tools/torrent_compress_recovery/torrent_compress_recovery/bencode.py:13-22 | a decoded string exactly when the key holds a byte string, and then its UTF-8 decoding |
| Bencode.IntField | tools/torrent_compress_recovery/torrent_compress_recovery/bencode.py:89-90 | the integer exactly when the key holds an integer, otherwise None |
| Bencode.Sha1Field | tools/torrent_compress_recovery/torrent_compress_recovery/bencode.py:105-106 | the BEP 47 sha1 is kept exactly when it is a byte string of 20 bytes, and then unchanged |
| Bencode.Stem | tools/torrent_compress_recovery/torrent_compress_recovery/bencode.py:58 | `Path.stem` is a prefix of the file name |
| Bencode.TorrentName | tools/torrent_compress_recovery/torrent_compress_recovery/bencode.py:58 | the `name` field when present and non-empty, otherwise the stem of the torrent path |
| Bencode.SplitPiecesExact | tools/torrent_compress_recovery/torrent_compress_recovery/bencode.py:76-78 | a hash list whose length is a multiple of 20 splits into len/20 pieces of 20 bytes that concatenate back to the list |
| Bencode.PathParts | tools/torrent_compress_recovery/torrent_compress_recovery/bencode.py:94-102 | a path is accepted exactly when every part is a byte string, and then each part is decoded in order |
| Bencode.EntryPath | tools/torrent_compress_recovery/torrent_compress_recovery/bencode.py:86-102 | an entry yields a path only when it is a dictionary with a non-empty path list |
| Bencode.SymlinkParts | tools/torrent_compress_recovery/torrent_compress_recovery/bencode.py:113-117 | non-byte-string parts are dropped; when every part is a byte string this is the full decoded list |
| Bencode.SymlinkField | tools/torrent_compress_recovery/torrent_compress_recovery/bencode.py:111-117 | `symlink_path` is set exactly when `symlink path` holds a list |
| Bencode.ParseErrors | tools/torrent_compress_recovery/torrent_compress_recovery/bencode.py:47-56 | a decode failure, a root that is not a dict and a missing or invalid info dict each raise their own error; otherwise the result is that of the info dict |
| Bencode.InfoErrors | tools/torrent_compress_recovery/torrent_compress_recovery/bencode.py:70-85 | the piece length, pieces and hash-list-length errors in order; the parse succeeds exactly when all hold and `files`, if present, is a list |
| Bencode.NeverV2 | tools/torrent_compress_recovery/torrent_compress_recovery/bencode.py:60-68 | a successful parse is never "v2": it is "hybrid" exactly when a v2 marker is present and "v1" otherwise |
| Bencode.ParsedPieces | tools/torrent_compress_recovery/torrent_compress_recovery/bencode.py:73-78 | the parsed pieces are 20-byte hashes that concatenate to the `pieces` field |
| Bencode.SingleFileTorrent | tools/torrent_compress_recovery/torrent_compress_recovery/bencode.py:121-134 | without `files` the torrent has one file named after the torrent, at offset 0, with the info's length and no symlink |
| Bencode.OffsetsCumulative | tools/torrent_compress_recovery/torrent_compress_recovery/bencode.py:80-120 | the first file is at offset 0 and each next file starts where the previous ends (a missing length counts as 0) |
| Bencode.Survivors | tools/torrent_compress_recovery/torrent_compress_recovery/bencode.py:86-102 | the kept entries are taken from the list, each has a valid path, and every entry with a valid path is kept |
| Bencode.SurvivorsAppend | tools/torrent_compress_recovery/torrent_compress_recovery/bencode.py:86-102 | filtering a list in two parts gives the two filtered parts in order, so kept entries keep their order |
| Bencode.SurvivorsDecide | tools/torrent_compress_recovery/torrent_compress_recovery/bencode.py:86-102 | the file list depends only on the entries that are kept |
| Bencode.FilesOfSurvivors | tools/torrent_compress_recovery/torrent_compress_recovery/bencode.py:119 | each kept entry gives one file whose relative path is its parts joined with "/" |
| Bencode.RelPaths | tools/torrent_compress_recovery/torrent_compress_recovery/bencode.py:86-119 | one file per kept entry, in order, with the joined path |
| Bencode.FileSha1Sizes | tools/torrent_compress_recovery/torrent_compress_recovery/bencode.py:105-106 | every per-file sha1 that is kept is 20 bytes long |
| Bencode.DecodePathParts | tools/torrent_compress_recovery/torrent_compress_recovery/bencode.py:94-102 | the part loop with its early exit computes PathParts |
| Bencode.DecodeSymlinkPath | tools/torrent_compress_recovery/torrent_compress_recovery/bencode.py:111-117 | the symlink loop computes SymlinkField |
| Bencode.ParseFileEntries | tools/torrent_compress_recovery/torrent_compress_recovery/bencode.py:80-120 | the entry loop computes the file list and the running offset after the last file |
| Bencode.ParseTorrent | tools/torrent_compress_recovery/torrent_compress_recovery/bencode.py:44-136 | `parse_torrent` from the decoded tree gives the metadata or the error described by the lemmas above |
| Text.Basename | tools/torrent_compress_recovery/torrent_compress_recovery/core.py:284 | `Path.name` is a suffix of the path without "/" |
| Recovery.RegularFiles | tools/torrent_compress_recovery/torrent_compress_recovery/core.py:32-34 | only regular files found by the walk are indexed |
| Recovery.Named | tools/torrent_compress_recovery/torrent_compress_recovery/core.py:35 | the files listed under a name all have that name |
| Recovery.AddAllAppend | tools/torrent_compress_recovery/torrent_compress_recovery/core.py:27-36 | indexing two lists one after the other is indexing their concatenation |
| Recovery.IndexLookup | tools/torrent_compress_recovery/torrent_compress_recovery/core.py:27-36 | the index lists under each name exactly the files of that name, in walk order, and has a key only for names that occur |
| Recovery.IndexWalk | tools/torrent_compress_recovery/torrent_compress_recovery/core.py:32-35 | the loop over one walk adds exactly the regular files |
| Recovery.BuildBasenameIndex | tools/torrent_compress_recovery/torrent_compress_recovery/core.py:27-36 | the loop over roots builds the index of every regular file under the existing roots |
| Recovery.MaxMtimeIndex | tools/torrent_compress_recovery/torrent_compress_recovery/core.py:47-48 | `max` by mtime picks a newest file, the first of equally new ones |
| Recovery.OfSize | tools/torrent_compress_recovery/torrent_compress_recovery/core.py:43 | the files of exactly the expected size, and all of them |
| Recovery.ChooseCandidate | tools/torrent_compress_recovery/torrent_compress_recovery/core.py:39-48 | None exactly when there are no candidates, otherwise one of them |
| Recovery.ChooseCandidateRules | tools/torrent_compress_recovery/torrent_compress_recovery/core.py:39-48 | the only file of the expected size; else the newest of several of that size; else the first newest of all |
| Recovery.FormatOf | tools/torrent_compress_recovery/torrent_compress_recovery/core.py:75-77 | each format exactly when the path ends with its suffix |
| Recovery.ShouldSkipFile | tools/torrent_compress_recovery/torrent_compress_recovery/core.py:69-83 | padding and unsupported suffixes are skipped; otherwise skip exactly when the destination exists and overwrite is off |
| Recovery.ExtractRawName | tools/torrent_compress_recovery/torrent_compress_recovery/core.py:86-108 | the raw name is a prefix of the compressed file's name |
| Recovery.RawNameStripsSuffix | tools/torrent_compress_recovery/torrent_compress_recovery/core.py:86-108 | for .gz, .xz and .zst paths the raw name plus the suffix is the file name |
| Recovery.LevelSuffixesDisjoint | tools/torrent_compress_recovery/torrent_compress_recovery/core.py:95-100 | a name never ends with both a .bzN and a .pbzN level suffix |
| Recovery.RawNameOfBz2 | tools/torrent_compress_recovery/torrent_compress_recovery/core.py:91-100 | for .bz2 names, the raw name followed by the level suffix found (if any) and ".bz2" gives back the name |
| Recovery.RawNameOfPbzExample | tools/torrent_compress_recovery/torrent_compress_recovery/core.py:90-100 | "a.pbz6.bz2" gives "a": the ".bzN" test fails on "pbz6" and the ".pbzN" branch strips five characters |
| Recovery.RawNameOfBzExample | tools/torrent_compress_recovery/torrent_compress_recovery/core.py:90-100 | "a.bz9.bz2" gives "a" |
| Recovery.FloorDiv | tools/torrent_compress_recovery/torrent_compress_recovery/core.py:115 | Python's `//` rounds toward minus infinity, for positive and for negative divisors |
| Recovery.PieceInfoBounds | tools/torrent_compress_recovery/torrent_compress_recovery/core.py:111-118 | with a positive piece length and offset, a piece is found exactly when the length is known and the offset is before the end of the pieces, and it is the piece holding the offset |
| Recovery.HashAlgo | tools/torrent_compress_recovery/torrent_compress_recovery/core.py:319 | SHA-256 exactly for v2 and hybrid torrents, SHA-1 exactly for v1 |
| Recovery.PartialMatch | tools/torrent_compress_recovery/torrent_compress_recovery/core.py:121-138 | the partial download that `choose_candidate` picks is used exactly when it holds a whole first piece whose SHA-1 is the target |
| Recovery.ParseHeader | tools/torrent_compress_recovery/torrent_compress_recovery/core.py:148-157 | for each format, a header exactly when that format's parser returns one, and then that parser's header |
| Recovery.HeaderFromPartial | tools/torrent_compress_recovery/torrent_compress_recovery/core.py:141-157 | no header without a partial download of that name; otherwise the format's parse of the chosen partial download |
| Recovery.MatchFrom | tools/torrent_compress_recovery/torrent_compress_recovery/core.py:189-190 | a match exactly when some candidate matches; then the first matching candidate's data, at least a piece long, whose first piece has the target hash under the torrent's hash algorithm |
| Recovery.Sha1SearchMeaning | tools/torrent_compress_recovery/torrent_compress_recovery/core.py:168-197 | no result exactly when no raw file has the file's length and BEP 47 SHA-1 and a matching candidate; otherwise the match of the first such raw file |
| Recovery.Sha1Match | tools/torrent_compress_recovery/torrent_compress_recovery/core.py:160-207 | attempt 1a succeeds only for files that carry a BEP 47 sha1 |
| Recovery.BruteForceMatch | tools/torrent_compress_recovery/torrent_compress_recovery/core.py:210-237 | nothing without a raw file of the raw name; otherwise the match of the raw file `choose_candidate` picks without an expected size |
| Recovery.DryRunEffects | tools/torrent_compress_recovery/torrent_compress_recovery/core.py:192-196 | on a dry run, whatever is found, the only change is making the destination's directory |
| Recovery.ProcessFileShape | tools/torrent_compress_recovery/torrent_compress_recovery/core.py:283-361 | skipped files have no effects; a fault comes only from the piece lookup; a dry run only makes the destination's directory |
| Recovery.Count | tools/torrent_compress_recovery/torrent_compress_recovery/core.py:275-281 | each file adds one to the counters' total |
| Recovery.CountTicks | tools/torrent_compress_recovery/torrent_compress_recovery/core.py:290-361 | a file adds one to its kind's counter and leaves the other six unchanged |
| Recovery.FoldTotal | tools/torrent_compress_recovery/torrent_compress_recovery/core.py:283-361 | after a run without fault the counters sum to the number of outcomes |
| Recovery.FoldEffects | tools/torrent_compress_recovery/torrent_compress_recovery/core.py:283-361 | every effect of the run is an effect of some file's outcome |
| Recovery.FoldOk | tools/torrent_compress_recovery/torrent_compress_recovery/core.py:283-361 | a run in which no file faults ends with counters |
| Recovery.CountersSumToFiles | tools/torrent_compress_recovery/torrent_compress_recovery/core.py:275-371 | the seven counters of `Result` add up to the number of files in the torrent |
| Recovery.DryRunOnlyMakesDirs | tools/torrent_compress_recovery/torrent_compress_recovery/core.py:259-371 | a dry run makes directories and never copies, writes or unlinks |
| Recovery.NoFaultOnSaneOffsets | tools/torrent_compress_recovery/torrent_compress_recovery/core.py:111-118 | with a positive piece length and non-negative offsets, `recover` never raises from the piece lookup |
| Recovery.AttemptsMeaning | tools/torrent_compress_recovery/torrent_compress_recovery/core.py:299-361 | a copied partial is the chosen one with the target SHA-1 on its first piece; compressed bytes are a piece long with the target hash; nothing is found exactly when all three attempts fail |
| Recovery.Sha1MatchHolds | tools/torrent_compress_recovery/torrent_compress_recovery/core.py:160-207 | bytes from attempt 1a have the target hash on their first piece |
| Recovery.HybridNeverCompressed | tools/torrent_compress_recovery/torrent_compress_recovery/core.py:311-347 | with 20-byte targets and 32-byte SHA-256 digests, a v2 or hybrid torrent never gets compressed bytes |
| Recovery.FoundEffectsCarryPiece | tools/torrent_compress_recovery/torrent_compress_recovery/core.py:130-136 | the copy reads the chosen partial and the write holds bytes whose first piece has the target hash |
| Recovery.ProcessFileWritesMatch | tools/torrent_compress_recovery/torrent_compress_recovery/core.py:283-361 | every write or copy `recover` does for a file carries the file's start-piece hash; no effects without a start piece |
| Recovery.MatchFromIgnoresDryRun | tools/torrent_compress_recovery/torrent_compress_recovery/core.py:189 | the candidate match does not depend on the dry-run flag |
| Recovery.Sha1MatchIgnoresDryRun | tools/torrent_compress_recovery/torrent_compress_recovery/core.py:160-189 | attempt 1a finds the same bytes on a dry run |
| Recovery.BruteForceIgnoresDryRun | tools/torrent_compress_recovery/torrent_compress_recovery/core.py:210-235 | attempt 2 finds the same bytes on a dry run |
| Recovery.AttemptsIgnoreDryRun | tools/torrent_compress_recovery/torrent_compress_recovery/core.py:299-361 | the three attempts find the same thing on a dry run |
| Recovery.ProcessFileIgnoresDryRun | tools/torrent_compress_recovery/torrent_compress_recovery/core.py:283-361 | a file counts under the same kind, or faults the same way, on a dry run |
| Recovery.FoldTally | tools/torrent_compress_recovery/torrent_compress_recovery/core.py:283-361 | outcomes of the same kinds give the same counters or the same fault |
| Recovery.DryRunSameCounts | tools/torrent_compress_recovery/torrent_compress_recovery/core.py:259-371 | a dry run returns the same counters as a real run, or the same fault |
| Recovery.TrySha1Match | tools/torrent_compress_recovery/torrent_compress_recovery/core.py:160-207 | the loop over raw files computes Sha1Match |
| Recovery.GenerateCandidates | tools/torrent_compress_recovery/torrent_compress_recovery/core.py:220-234 | the dispatch by suffix computes the format's candidate list |
| Recovery.TryBruteForceRecovery | tools/torrent_compress_recovery/torrent_compress_recovery/core.py:210-256 | computes BruteForceMatch |
| Recovery.RecoverFile | tools/torrent_compress_recovery/torrent_compress_recovery/core.py:284-361 | one pass of the loop body computes the file's outcome |
| Recovery.RunAttempts | tools/torrent_compress_recovery/torrent_compress_recovery/core.py:299-361 | attempts 1, 1a and 2 in order compute `Attempts`, characterised by AttemptsMeaning |
| Recovery.RunLoop | tools/torrent_compress_recovery/torrent_compress_recovery/core.py:283-361 | the loop over files computes the fold of the outcomes: the counters and the effects in order, or the first fault |
| Recovery.Recover | tools/torrent_compress_recovery/torrent_compress_recovery/core.py:259-371 | `recover` builds both indexes and runs the loop over the torrent's files |
| Matching.FirstMatchIndex | tools/torrent_compress_recovery/torrent_compress_recovery/gzip.py:209-223 | None exactly when no candidate matches; otherwise the index of a matching candidate before which none matches |
| Matching.FindMatchingCandidate | tools/torrent_compress_recovery/torrent_compress_recovery/gzip.py:209-223 | the loop returns the first candidate at least a piece long whose first piece has the target hash |
| Matching.ToolLevelGridPair | tools/torrent_compress_recovery/torrent_compress_recovery/bz2.py:102-103 | runs go tool by tool, each over the three levels in order |
| Matching.GenerateToolLevelCandidates | tools/torrent_compress_recovery/torrent_compress_recovery/bz2.py:102-115 | the double loop collects the successful runs over the tool/level grid in order |
| Gzip.ReadZeroTerminated | tools/torrent_compress_recovery/torrent_compress_recovery/gzip.py:44-48 | a field read ends at a zero byte, and reading resumes just past it |
| Gzip.ReadZeroTerminatedIsFind | tools/torrent_compress_recovery/torrent_compress_recovery/gzip.py:44-48 | the byte-by-byte scan is `find` of the first zero from the position, then the slice up to it |
| Gzip.ReadZeroTerminatedMeaning | tools/torrent_compress_recovery/torrent_compress_recovery/gzip.py:44-48 | None exactly when no zero byte follows; otherwise the bytes at the position, holding no zero |
| Gzip.ReadExtra | tools/torrent_compress_recovery/torrent_compress_recovery/gzip.py:38-42 | the extra field is read exactly when FEXTRA is set |
| Gzip.ReadString | tools/torrent_compress_recovery/torrent_compress_recovery/gzip.py:43-54 | an absent flag reads nothing and keeps the position; a set flag that reads gives a field |
| Gzip.ReadStringMeaning | tools/torrent_compress_recovery/torrent_compress_recovery/gzip.py:43-54 | a set flag fails exactly when no terminator follows; a field read holds no zero |
| Gzip.ParseOptional | tools/torrent_compress_recovery/torrent_compress_recovery/gzip.py:34-56 | each optional field is present exactly when its flag is set; no failure without FNAME and FCOMMENT |
| Gzip.ParsedFieldsHaveNoNul | tools/torrent_compress_recovery/torrent_compress_recovery/gzip.py:43-54 | a parsed name or comment holds no zero byte |
| Gzip.ParseGzipHeader | tools/torrent_compress_recovery/torrent_compress_recovery/gzip.py:21-56 | None for short input, bad magic or a method other than deflate; otherwise flags, mtime and OS from the fixed bytes and fields matching the flags |
| Gzip.UnterminatedName | tools/torrent_compress_recovery/torrent_compress_recovery/gzip.py:43-46 | a name with no terminator in the 256 bytes read makes the parse fail |
| Gzip.PatchFixed | tools/torrent_compress_recovery/torrent_compress_recovery/gzip.py:103-114 | flags, mtime, XFL=0 and OS written to bytes 3-9, all else kept |
| Gzip.SpliceExtra | tools/torrent_compress_recovery/torrent_compress_recovery/gzip.py:116-125 | the FEXTRA step keeps the fixed header |
| Gzip.SpliceName | tools/torrent_compress_recovery/torrent_compress_recovery/gzip.py:126-137 | the FNAME step keeps the fixed header |
| Gzip.SpliceComment | tools/torrent_compress_recovery/torrent_compress_recovery/gzip.py:138-147 | the FCOMMENT step keeps the fixed header |
| Gzip.GzipPatched | tools/torrent_compress_recovery/torrent_compress_recovery/gzip.py:101-148 | data shorter than 10 bytes is unchanged; otherwise magic and method are kept and flags, mtime, XFL and OS are the header's |
| Gzip.WriteFixedFields | tools/torrent_compress_recovery/torrent_compress_recovery/gzip.py:106-114 | the in-place writes on a `bytearray` compute PatchFixed |
| Gzip.ExtraStep | tools/torrent_compress_recovery/torrent_compress_recovery/gzip.py:116-125 | computes SpliceExtra |
| Gzip.NameStep | tools/torrent_compress_recovery/torrent_compress_recovery/gzip.py:126-137 | computes SpliceName |
| Gzip.CommentStep | tools/torrent_compress_recovery/torrent_compress_recovery/gzip.py:138-147 | computes SpliceComment |
| Gzip.PatchGzipHeader | tools/torrent_compress_recovery/torrent_compress_recovery/gzip.py:101-148 | computes GzipPatched |
| Gzip.PatchLayout | tools/torrent_compress_recovery/torrent_compress_recovery/gzip.py:101-148 | with every flagged field given, the result is the fixed header, then the optional fields, then the original data after the fixed header (minus a replaced extra field) |
| Gzip.ReadExtraRoundTrip | tools/torrent_compress_recovery/torrent_compress_recovery/gzip.py:38-42 | reading back a written extra field gives the field and the position after it |
| Gzip.ReadStringRoundTrip | tools/torrent_compress_recovery/torrent_compress_recovery/gzip.py:43-54 | reading back a written zero-terminated field gives the field |
| Gzip.ParseOptionalRoundTrip | tools/torrent_compress_recovery/torrent_compress_recovery/gzip.py:34-56 | optional fields laid out after the fixed ten bytes read back as the header |
| Gzip.ParseBack | tools/torrent_compress_recovery/torrent_compress_recovery/gzip.py:38-54 | each optional field laid out after the previous one reads back where that one ends |
| Gzip.PatchedWindow | tools/torrent_compress_recovery/torrent_compress_recovery/gzip.py:101-148 | the 256 bytes read from a patched stream hold the magic, method, the header's flags, mtime and OS, then its optional fields |
| Gzip.PatchThenParse | tools/torrent_compress_recovery/torrent_compress_recovery/gzip.py:101-148 | parsing a patched gzip stream gives back the header it was patched with, when the fields fit in the 256 bytes read |
| Gzip.PatchWithoutOptionalFields | tools/torrent_compress_recovery/torrent_compress_recovery/gzip.py:101-148 | without optional flags only the fixed header changes |
| Gzip.PatchNameOnly | tools/torrent_compress_recovery/torrent_compress_recovery/gzip.py:126-131 | with only FNAME, the name and its terminator are inserted after the fixed header |
| Gzip.SetFlagNamesMeaning | tools/torrent_compress_recovery/torrent_compress_recovery/gzip.py:66-82 | the listed names are flag names, and the list is empty exactly when no flag bit is set |
| Gzip.FormatFlagNames | tools/torrent_compress_recovery/torrent_compress_recovery/gzip.py:66-82 | the eight tests compute SetFlagNames |
| Gzip.NoFlagNames | tools/torrent_compress_recovery/torrent_compress_recovery/gzip.py:66-83 | for a flag byte, no names and "(none)" exactly when the byte is 0 |
| Gzip.FnameOnlyFlagNames | tools/torrent_compress_recovery/torrent_compress_recovery/gzip.py:73-74 | flags 8 list exactly "FNAME" |
| Gzip.RunRsyncRow | tools/torrent_compress_recovery/torrent_compress_recovery/gzip.py:184-200 | the --rsyncable loop collects the successful runs in order |
| Gzip.RunNameBlock | tools/torrent_compress_recovery/torrent_compress_recovery/gzip.py:183-200 | the -n loop collects the successful runs in order |
| Gzip.RunLevelBlock | tools/torrent_compress_recovery/torrent_compress_recovery/gzip.py:182-200 | the level loop collects the successful runs in order |
| Gzip.RunGzipGrid | tools/torrent_compress_recovery/torrent_compress_recovery/gzip.py:181-200 | the tool loop collects the successful runs over the whole grid in order |
| Gzip.GenerateGzipCandidates | tools/torrent_compress_recovery/torrent_compress_recovery/gzip.py:156-201 | the header match first (when a header is given), then the grid's successful runs, patched with the header |
| Gzip.NameBlockOrder | tools/torrent_compress_recovery/torrent_compress_recovery/gzip.py:183 | at one tool and level, the -n runs come before the others |
| Gzip.LevelBlockOrder | tools/torrent_compress_recovery/torrent_compress_recovery/gzip.py:182 | levels 1, 6 and 9 in that order |
| Gzip.GzipGridOrder | tools/torrent_compress_recovery/torrent_compress_recovery/gzip.py:175-200 | gzip with and without --rsyncable, then pigz when present without it; at most 18 runs |
| Gzip.GzipCandidateCount | tools/torrent_compress_recovery/torrent_compress_recovery/gzip.py:156-201 | at most 19 candidates, "header_match" first when a header is given |
| Bzip2.BlockSize | tools/torrent_compress_recovery/torrent_compress_recovery/bz2.py:16-17 | 100000 times the level for levels 1-9, 0 otherwise |
| Bzip2.ParseBzip2Header | tools/torrent_compress_recovery/torrent_compress_recovery/bz2.py:38-51 | a header exactly for "BZh" followed by a digit 1-9, whose value is the level, with the matching block size |
| Bzip2.Bzip2Patched | tools/torrent_compress_recovery/torrent_compress_recovery/bz2.py:63-71 | only byte 3 changes, to the level's digit, and only for data starting with "BZh" |
| Bzip2.PatchBzip2Header | tools/torrent_compress_recovery/torrent_compress_recovery/bz2.py:63-71 | the in-place write on a `bytearray` computes Bzip2Patched |
| Bzip2.PatchThenParse | tools/torrent_compress_recovery/torrent_compress_recovery/bz2.py:63-71 | parsing a patched stream gives back the level and its block size |
| Bzip2.ParseThenPatch | tools/torrent_compress_recovery/torrent_compress_recovery/bz2.py:63-71 | patching with a stream's own header changes nothing |
| Bzip2.GenerateBzip2Candidates | tools/torrent_compress_recovery/torrent_compress_recovery/bz2.py:79-117 | the header match when `bz2.compress` succeeds, then the successful bzip2/pbzip2 runs |
| Bzip2.Bzip2GridOrder | tools/torrent_compress_recovery/torrent_compress_recovery/bz2.py:95-115 | bzip2 at levels 1, 6, 9, then pbzip2 (only when present) at the same levels |
| Bzip2.Bzip2CandidateCount | tools/torrent_compress_recovery/torrent_compress_recovery/bz2.py:95-115 | at most 7 candidates: one header match and six tool runs |
| Xz.ParseXzHeader | tools/torrent_compress_recovery/torrent_compress_recovery/xz.py:33-55 | None exactly for short input or bad magic; otherwise the 16-bit little-endian flags and the CRC64 bit |
| Xz.ParseIgnoresStoredCheck | tools/torrent_compress_recovery/torrent_compress_recovery/xz.py:45-51 | the stored header CRC does not affect the parse |
| Xz.XzPatched | tools/torrent_compress_recovery/torrent_compress_recovery/xz.py:67-79 | only bytes 6-7 change, to the flags, and only for data with the magic and 12 bytes |
| Xz.PatchXzHeader | tools/torrent_compress_recovery/torrent_compress_recovery/xz.py:67-79 | the slice assignment computes XzPatched |
| Xz.PatchThenParse | tools/torrent_compress_recovery/torrent_compress_recovery/xz.py:67-79 | parsing a patched stream gives the header back exactly when its CRC64 field agrees with bit 0 of its flags |
| Xz.ParseThenPatch | tools/torrent_compress_recovery/torrent_compress_recovery/xz.py:67-79 | patching with a stream's own header changes nothing |
| Xz.BuildXzCommandLevel | tools/torrent_compress_recovery/torrent_compress_recovery/xz.py:117-122 | four words: the tool (pixz for any tool but xz), then "-" and the level in decimal |
| Xz.GenerateHeaderMatchCandidate | tools/torrent_compress_recovery/torrent_compress_recovery/xz.py:87-103 | xz on the raw bytes, patched, when it succeeds |
| Xz.GenerateXzCandidates | tools/torrent_compress_recovery/torrent_compress_recovery/xz.py:141-161 | the header match (when it succeeds), then the successful runs, patched when a header is given |
| Xz.XzGridOrder | tools/torrent_compress_recovery/torrent_compress_recovery/xz.py:106-161 | xz at levels 0, 6, 9, then pixz (only when present) at the same levels |
| Xz.XzCandidateCount | tools/torrent_compress_recovery/torrent_compress_recovery/xz.py:106-161 | at most 7 candidates: one header match and six tool runs |
| Zstd.ParseZstdHeader | tools/torrent_compress_recovery/torrent_compress_recovery/zst.py:38-63 | None exactly for short input or bad magic; otherwise the window log and the three flag bits of byte 4 |
| Zstd.LowByteBits | tools/torrent_compress_recovery/torrent_compress_recovery/zst.py:47-56 | the fields read from the 16-bit frame header all come from its low byte |
| Zstd.FrameHeaderValue | tools/torrent_compress_recovery/torrent_compress_recovery/zst.py:83-89 | the rebuilt byte has the single-segment and checksum bits of the header; bit 3 is set when the dictionary flag or window log bit 3 is set |
| Zstd.ZstdPatched | tools/torrent_compress_recovery/torrent_compress_recovery/zst.py:77-95 | only bytes 4-5 change, to the rebuilt value and 0, and only for data with the magic and 6 bytes |
| Zstd.PatchZstdHeader | tools/torrent_compress_recovery/torrent_compress_recovery/zst.py:77-95 | the slice assignment computes ZstdPatched |
| Zstd.PatchThenParse | tools/torrent_compress_recovery/torrent_compress_recovery/zst.py:77-95 | parsing a patched stream gives the header back exactly when the header's fields fit the frame header byte |
| Zstd.PatchClearsHighByte | tools/torrent_compress_recovery/torrent_compress_recovery/zst.py:91-93 | the patched byte 4 is at most 0x3F and byte 5 is 0 |
| Zstd.BuildZstdCommandLevel | tools/torrent_compress_recovery/torrent_compress_recovery/zst.py:133-138 | four words: the tool (pzstd for any tool but zstd), then "-" and the level in decimal |
| Zstd.GenerateHeaderMatchCandidate | tools/torrent_compress_recovery/torrent_compress_recovery/zst.py:103-119 | zstd on the raw bytes, patched, when it succeeds |
| Zstd.GenerateZstdCandidates | tools/torrent_compress_recovery/torrent_compress_recovery/zst.py:157-177 | the header match (when it succeeds), then the successful runs, patched when a header is given |
| Zstd.ZstdGridOrder | tools/torrent_compress_recovery/torrent_compress_recovery/zst.py:122-177 | zstd at levels 1, 3, 22, then pzstd (only when present) at the same levels |
| Zstd.ZstdCandidateCount | tools/torrent_compress_recovery/torrent_compress_recovery/zst.py:122-177 | at most 7 candidates: one header match and six tool runs |
| Verify.ReadGzipTrailer | tools/torrent_compress_recovery/torrent_compress_recovery/verify.py:22-36 | None exactly for files under 8 bytes; otherwise two 32-bit values |
| Verify.GzipTrailerRoundTrip | tools/torrent_compress_recovery/torrent_compress_recovery/verify.py:22-36 | the trailer read back is the CRC and size written little-endian at the end |
| Verify.Crc32Concat | tools/torrent_compress_recovery/torrent_compress_recovery/verify.py:39-47 | feeding CRC-32 two chunks in turn is feeding it their concatenation |
| Verify.ComputeRawCrc32AndIsize | tools/torrent_compress_recovery/torrent_compress_recovery/verify.py:39-47 | the 8192-byte chunk loop gives the CRC-32 of the whole file and its size modulo 2^32 |
| Verify.VerifyRawAgainstGz | tools/torrent_compress_recovery/torrent_compress_recovery/verify.py:50-57 | true exactly when the trailer's CRC and size equal the raw file's; false when there is no trailer |
| Verify.GzAcceptsOwnTrailer | tools/torrent_compress_recovery/torrent_compress_recovery/verify.py:50-57 | a gzip stream ending in a trailer passes exactly when the trailer is the raw file's CRC and size |
| Verify.ReadXzFooter | tools/torrent_compress_recovery/torrent_compress_recovery/verify.py:60-81 | None exactly for files under 12 bytes or without the footer magic; otherwise a 32-bit CRC and a backward size of 1 to 2^32 |
| Verify.XzFooterRoundTrip | tools/torrent_compress_recovery/torrent_compress_recovery/verify.py:60-81 | a written footer reads back as its CRC and backward size |
| Verify.ReadZstdFooter | tools/torrent_compress_recovery/torrent_compress_recovery/verify.py:98-115 | None exactly for files under 4 bytes; otherwise the checksum and a content size of 0 |
| Verify.ZstdFooterRoundTrip | tools/torrent_compress_recovery/torrent_compress_recovery/verify.py:98-115 | a written checksum reads back |
| Verify.VerdictRules | tools/torrent_compress_recovery/torrent_compress_recovery/verify.py:139-177 | a verdict exactly for .gz/.xz/.zst files whose partial file exists and is complete, never for .bz2; false when the raw file is missing, otherwise the format's check |
| Verify.CollectLastWins | tools/torrent_compress_recovery/torrent_compress_recovery/verify.py:138-177 | a name is a key exactly when some entry records it, with the last such entry's value |
| Verify.ResultsLastWins | tools/torrent_compress_recovery/torrent_compress_recovery/verify.py:131-179 | a file name is in the result exactly when some file of that name gets a verdict, and its value is the last such file's verdict |
| Verify.VerifyLastPieceAgainstRaw | tools/torrent_compress_recovery/torrent_compress_recovery/verify.py:131-179 | the loop over files builds the result map |
| Compressors.DefaultTable | tools/torrent_compress_recovery/torrent_compress_recovery/compressors.py:108-114 | the table has exactly the four extensions, each under its own compressor's `extension`, and lookups are case-sensitive |
| Compressors.Lookup | tools/torrent_compress_recovery/torrent_compress_recovery/compressors.py:117-121 | a class exactly when the extension is registered, otherwise the ValueError |
| Compressors.RegisterThenLookup | tools/torrent_compress_recovery/torrent_compress_recovery/compressors.py:124-126 | after registering, the key gives the new class and other keys are unchanged |
| Compressors.Registry.constructor | tools/torrent_compress_recovery/torrent_compress_recovery/compressors.py:108-114 | the registry starts with the default table |
| Compressors.Registry.Get | tools/torrent_compress_recovery/torrent_compress_recovery/compressors.py:117-121 | `get_compressor` on the current table |
| Compressors.Registry.Register | tools/torrent_compress_recovery/torrent_compress_recovery/compressors.py:124-126 | the table gains or replaces exactly that key |
| Compressors.FirstSuccessOrder | tools/torrent_compress_recovery/torrent_compress_recovery/compressors.py:69-79 | the first successful tool's output, all earlier tools having failed; none exactly when every tool fails |
| Compressors.CompressRules | tools/torrent_compress_recovery/torrent_compress_recovery/compressors.py:31-105 | a dry run does nothing; otherwise the directory first, then at most one write, to the destination; bzip2 raises exactly when `bz2.compress` fails and leaves an empty destination; xz and zstd raise exactly when both their tools fail and write nothing |
| Compressors.Compress | tools/torrent_compress_recovery/torrent_compress_recovery/compressors.py:31-105 | `compress` with its fallback loop computes CompressSpec for every built-in compressor |

## Left out

- Reading the .torrent file, the bencode decoder and UTF-8 decoding are inputs. `_bstr`
  first tries a strict UTF-8 decode and then one with replacement characters. Both give
  the same text wherever the strict one succeeds, so the model uses one decoding function.
- Directory walking (`os.walk`), `stat()` and `read_bytes()` are the file records given
  to the model. A file that disappears between listing and use (`p.exists()` in
  `choose_candidate`) is not modelled: every listed file exists.
- Modification times are integers. Float `st_mtime` comparison is not modelled.
- Hashes, CRC-32, the external tools (gzip, pigz, bzip2, pbzip2, xz, pixz, zstd, pzstd),
  Python's gzip and bz2 modules, temporary files and `subprocess` are the uninterpreted
  `Env`. A command's result is its output or failure given the input file's bytes.
  Temporary file creation and deletion are not modelled.
- Paths are strings joined with "/". `pathlib` normalisation is not modelled: duplicate
  slashes, ".." and an absolute `rel_path` replacing the target directory.
- `dst.exists()` is a snapshot of the destination tree when `recover` starts. A file the
  same run writes earlier under the same path is not seen by later checks.
- The `raw_fallback` option of `recover` is accepted by the source and never used, so
  the model has no parameter for it.
- A zero piece length raises in `_get_piece_info`, and so does a negative start index
  past the front of the pieces list. The model returns these as faults, and a fault ends
  the run. A negative index within the list reads from its end, as Python does.
- `format_gzip_header`, `format_bzip2_header`, `format_xz_header` and `format_zstd_header`
  produce text for display only. Only the gzip flag names are modelled; the other lines
  and `_get_block_size_description` are not.
- Gzip.NoFlagNames: stated for flag values 0-255, the range `parse_gzip_header` can
  produce.
- Gzip.GzipPatched: requires a header that `patch_gzip_header` can write (mtime below
  2^32, extra field below 65536 bytes). Larger values make `int.to_bytes` raise.
  Every header `parse_gzip_header` returns meets this.
- Gzip.PatchThenParse: stated for headers whose flagged fields are all given and whose
  name and comment hold no zero byte, the headers `parse_gzip_header` returns.
- The xz header's stored CRC is read and ignored by the source, and so by the model.
  The SHA-256-based "CRC" it computes is never used.
- The `len(trailer) != 8` style checks in `verify.py` follow a read of exactly that many
  bytes from a file known to be long enough. The model reads those bytes as slices.
- `verify_raw_against_xz` and `verify_raw_against_zst` run a decompressor on the partial
  file. The model gives the runner the partial file's bytes and compares its output with
  the raw file. Their footer readers are modelled but, as in the source, not used by the
  verdict.
- Compressors.Compress: covers the four built-in classes. A class registered by a caller
  is stored and looked up (`UserClass`), but its `compress` is code the model cannot see.
- The abstract `Compressor` base class and the `extension` properties are folded into
  the `Builtin` datatype and `Extension`.
- `bz2.compress` failing inside `Bzip2Compressor.compress` is modelled as the call
  raising, with the message "bz2.compress failed", after the destination was opened for
  writing: an empty destination file is recorded.
- `cli.py` and logging are not part of this model.
- Matching.FindMatchingCandidate: `bz2.py`, `xz.py` and `zst.py` each define the same
  function as `gzip.py`. The model defines it once.
