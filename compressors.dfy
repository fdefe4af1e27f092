/**
 * The compressor registry: a table from file extension to compressor class that callers
 * read with `get_compressor` and change with `register_compressor`, and the four built-in
 * compressors, whose `compress` writes the compressed copy of a raw file.
 */
module Compressors {
  import opened Wrappers
  import opened Bytes
  import opened Text
  import opened Platform

  /** The four built-in compressor classes. */
  datatype Builtin = GzipCompressor | Bzip2Compressor | XzCompressor | ZstdCompressor

  /** What the table holds: a built-in class, or any class a caller registered, which is
      stored without being checked. */
  datatype CompressorClass = BuiltinClass(builtin: Builtin) | UserClass(name: string)

  /** The `extension` property of a built-in compressor. */
  function Extension(b: Builtin): string {
    match b
    case GzipCompressor => ".gz"
    case Bzip2Compressor => ".bz2"
    case XzCompressor => ".xz"
    case ZstdCompressor => ".zst"
  }

  const DEFAULT_TABLE: map<string, CompressorClass> := map[
    ".gz" := BuiltinClass(GzipCompressor),
    ".bz2" := BuiltinClass(Bzip2Compressor),
    ".xz" := BuiltinClass(XzCompressor),
    ".zst" := BuiltinClass(ZstdCompressor)]

  /** The default table has exactly the four extensions, each under its own compressor's
      `extension`; lookups are exact, so ".GZ" is not there. */
  lemma DefaultTable()
    ensures DEFAULT_TABLE.Keys == {".gz", ".bz2", ".xz", ".zst"}
    ensures forall b: Builtin :: Extension(b) in DEFAULT_TABLE && DEFAULT_TABLE[Extension(b)] == BuiltinClass(b)
    ensures forall ext :: ext in DEFAULT_TABLE ==>
      DEFAULT_TABLE[ext].BuiltinClass? && Extension(DEFAULT_TABLE[ext].builtin) == ext
    ensures ".GZ" !in DEFAULT_TABLE
  {
    assert ".GZ"[1] != ".gz"[1];
    forall b: Builtin
      ensures Extension(b) in DEFAULT_TABLE && DEFAULT_TABLE[Extension(b)] == BuiltinClass(b)
    {
      match b
      case GzipCompressor =>
      case Bzip2Compressor =>
      case XzCompressor =>
      case ZstdCompressor =>
    }
  }

  /** `get_compressor` on a table: the class under exactly that key, or the ValueError. */
  function Lookup(table: map<string, CompressorClass>, ext: string): (r: Result<CompressorClass, string>)
    ensures r.Ok? <==> ext in table
  {
    if ext !in table then Err("No compressor registered for extension " + ext) else Ok(table[ext])
  }

  /** Registering stores the class under that key, replacing what was there, and leaves every
      other key as it was. */
  lemma RegisterThenLookup(table: map<string, CompressorClass>, ext: string, cls: CompressorClass, other: string)
    ensures Lookup(table[ext := cls], ext) == Ok(cls)
    ensures other != ext ==> Lookup(table[ext := cls], other) == Lookup(table, other)
    ensures table[ext := cls].Keys == table.Keys + {ext}
  {
  }

  /** The module-level `_COMPRESSORS` dict. */
  class Registry {
    var table: map<string, CompressorClass>

    constructor ()
      ensures table == DEFAULT_TABLE
    {
      table := DEFAULT_TABLE;
    }

    /** `get_compressor` */
    method Get(ext: string) returns (r: Result<CompressorClass, string>)
      ensures r == Lookup(table, ext)
      ensures r.Ok? ==> ext in table && r.value == table[ext]
    {
      if ext !in table {
        return Err("No compressor registered for extension " + ext);
      }
      return Ok(table[ext]);
    }

    /** `register_compressor`: insert or overwrite one key. */
    method Register(ext: string, cls: CompressorClass)
      modifies this
      ensures table == old(table)[ext := cls]
    {
      table := table[ext := cls];
    }
  }

  // ---------------------------------------------------------------- compress

  /** What one call of `compress` did: its file system changes in order, and the message of
      the RuntimeError it raised, if any. */
  datatype CompressRun = CompressRun(effects: seq<Effect>, error: Option<string>)

  /** The command-line tools the xz and zstd compressors try, in order. */
  function FallbackTools(b: Builtin): seq<string> {
    match b
    case XzCompressor => ["xz", "pixz"]
    case ZstdCompressor => ["zstd", "pzstd"]
    case _ => []
  }

  function NoToolMessage(b: Builtin): string {
    match b
    case XzCompressor => "Neither xz nor pixz is available"
    case ZstdCompressor => "Neither zstd nor pzstd is available"
    case _ => ""
  }

  /** The output of the first tool in the list that runs and succeeds on the source file. */
  function FirstSuccess(tools: seq<string>, src: FileEntry, env: Env): (r: Option<seq<byte>>)
    decreases |tools|
  {
    if tools == [] then None
    else match env.run([tools[0], "-c", src.path], src.content)
      case Some(out) => Some(out)
      case None => FirstSuccess(tools[1..], src, env)
  }

  /** Tools are tried in order: the result is the output of a tool all of whose predecessors
      failed, and there is none only when every tool fails. */
  lemma {:induction false} FirstSuccessOrder(tools: seq<string>, src: FileEntry, env: Env)
    ensures FirstSuccess(tools, src, env).None? <==> forall i :: 0 <= i < |tools| ==> env.run([tools[i], "-c", src.path], src.content).None?
    ensures FirstSuccess(tools, src, env).Some? ==>
      exists i :: 0 <= i < |tools| && env.run([tools[i], "-c", src.path], src.content) == FirstSuccess(tools, src, env)
        && forall j :: 0 <= j < i ==> env.run([tools[j], "-c", src.path], src.content).None?
    decreases |tools|
  {
    if tools != [] {
      FirstSuccessOrder(tools[1..], src, env);
      if env.run([tools[0], "-c", src.path], src.content).None? {
        if FirstSuccess(tools, src, env).Some? {
          var i :| 0 <= i < |tools[1..]| && env.run([tools[1..][i], "-c", src.path], src.content) == FirstSuccess(tools, src, env)
            && forall j :: 0 <= j < i ==> env.run([tools[1..][j], "-c", src.path], src.content).None?;
          assert tools[i + 1] == tools[1..][i];
          forall j | 0 <= j < i + 1
            ensures env.run([tools[j], "-c", src.path], src.content).None?
          {
            if j > 0 {
              assert tools[j] == tools[1..][j - 1];
            }
          }
        }
        forall i | 0 < i < |tools|
          ensures tools[i] == tools[1..][i - 1]
        {
        }
      }
    }
  }

  /** What `compress(src, dst, dry_run)` of a built-in compressor does. */
  function CompressSpec(b: Builtin, src: FileEntry, dst: string, dryRun: bool, env: Env): CompressRun {
    if dryRun then CompressRun([], None)
    else
      var mkdir := [MakeDirs(Parent(dst))];
      match b
      case GzipCompressor => CompressRun(mkdir + [WriteFile(dst, env.pyGzip(src.content, 0))], None)
      case Bzip2Compressor =>
        (match env.pyBz2(src.content, 9)
         case Some(data) => CompressRun(mkdir + [WriteFile(dst, data)], None)
         case None => CompressRun(mkdir + [WriteFile(dst, [])], Some("bz2.compress failed")))
      case _ =>
        (match FirstSuccess(FallbackTools(b), src, env)
         case Some(out) => CompressRun(mkdir + [WriteFile(dst, out)], None)
         case None => CompressRun(mkdir, Some(NoToolMessage(b))))
  }

  /** A dry run does nothing; otherwise the destination's directory is made first and the only
      file written is the destination, at most once. The bzip2 compressor opens the destination
      before compressing, so when `bz2.compress` fails it leaves an empty file behind; the xz and
      zstd compressors raise exactly when both of their tools fail, and then write nothing. */
  lemma CompressRules(b: Builtin, src: FileEntry, dst: string, dryRun: bool, env: Env)
    ensures dryRun ==> CompressSpec(b, src, dst, dryRun, env) == CompressRun([], None)
    ensures var run := CompressSpec(b, src, dst, dryRun, env);
      !dryRun ==>
        1 <= |run.effects| <= 2 && run.effects[0] == MakeDirs(Parent(dst))
        && (run.error.None? ==> |run.effects| == 2)
        && (|run.effects| == 2 ==> run.effects[1].WriteFile? && run.effects[1].path == dst)
    ensures var run := CompressSpec(b, src, dst, dryRun, env);
      b == Bzip2Compressor && !dryRun ==>
        (run.error.Some? <==> env.pyBz2(src.content, 9).None?)
        && (run.error.Some? ==> run.effects == [MakeDirs(Parent(dst)), WriteFile(dst, [])])
    ensures var run := CompressSpec(b, src, dst, dryRun, env);
      b != Bzip2Compressor && !dryRun ==> (|run.effects| == 2 <==> run.error.None?)
    ensures (b == XzCompressor || b == ZstdCompressor) && !dryRun ==>
      (CompressSpec(b, src, dst, dryRun, env).error.Some? <==>
        forall i :: 0 <= i < 2 ==> env.run([FallbackTools(b)[i], "-c", src.path], src.content).None?)
  {
    FirstSuccessOrder(FallbackTools(b), src, env);
  }

  /** `compress` of a built-in compressor: the loop over the fallback tools for xz and zstd. */
  method Compress(b: Builtin, src: FileEntry, dst: string, dryRun: bool, env: Env) returns (run: CompressRun)
    ensures run == CompressSpec(b, src, dst, dryRun, env)
  {
    if dryRun {
      return CompressRun([], None);
    }
    var effects := [MakeDirs(Parent(dst))];
    match b {
      case GzipCompressor =>
        return CompressRun(effects + [WriteFile(dst, env.pyGzip(src.content, 0))], None);
      case Bzip2Compressor =>
        var data := env.pyBz2(src.content, 9);
        if data.None? {
          return CompressRun(effects + [WriteFile(dst, [])], Some("bz2.compress failed"));
        }
        return CompressRun(effects + [WriteFile(dst, data.value)], None);
      case _ =>
    }
    var tools := FallbackTools(b);
    for i := 0 to |tools|
      invariant FirstSuccess(tools, src, env) == FirstSuccess(tools[i..], src, env)
    {
      assert tools[i..][1..] == tools[i + 1..];
      var proc := env.run([tools[i], "-c", src.path], src.content);
      if proc.Some? {
        return CompressRun(effects + [WriteFile(dst, proc.value)], None);
      }
    }
    return CompressRun(effects, Some(NoToolMessage(b)));
  }
}
