/**
 * What the recovery tool takes from the machine it runs on. Hash functions, CRC-32,
 * external compressor binaries and Python's own gzip/bz2 modules are not interpreted:
 * they are fields of an `Env` value that every operation receives. Files are records of
 * what `stat()` and `read_bytes()` would return; writes are recorded as effects.
 */
module Platform {
  import opened Wrappers
  import opened Bytes
  import opened Text

  type uint32 = x: int | 0 <= x < 0x1_0000_0000

  datatype Env = Env(
    /** `hashlib.sha1(data).digest()` */
    sha1: seq<byte> -> seq<byte>,
    /** `hashlib.sha256(data).digest()` */
    sha256: seq<byte> -> seq<byte>,
    /** One byte of `zlib.crc32`, acting on the running (unsigned, post-conditioned) value. */
    crc32Step: (uint32, byte) -> uint32,
    /** `subprocess.run(cmd)` fed with a file's bytes: its stdout, or None when the
        binary is missing or exits with a non-zero status. */
    run: (seq<string>, seq<byte>) -> Option<seq<byte>>,
    /** `gzip.GzipFile(filename="", mode="wb", mtime=m)` written with the data. */
    pyGzip: (seq<byte>, int) -> seq<byte>,
    /** `bz2.compress(data, compresslevel=level)`, None when it raises. */
    pyBz2: (seq<byte>, int) -> Option<seq<byte>>
  )

  /** `subprocess.run(cmd, check=True)` succeeds: how the generators probe for pigz, pbzip2, pixz, pzstd. */
  predicate ToolAvailable(env: Env, probe: seq<string>) {
    env.run(probe, []).Some?
  }

  /** A path met while walking a directory, with its `is_file()`, contents and `st_mtime`. */
  datatype FileEntry = FileEntry(path: string, isFile: bool, content: seq<byte>, mtime: int)

  /** `stat().st_size` */
  function Size(f: FileEntry): nat {
    |f.content|
  }

  /** A change the tool makes to the file system. */
  datatype Effect =
    | MakeDirs(dir: string)
    | CopyFile(src: string, dst: string)
    | WriteFile(path: string, data: seq<byte>)
    | Unlink(path: string)

  /** `Path(dir) / name` */
  function JoinPath(dir: string, name: string): string {
    dir + "/" + name
  }

  /** `Path(path).parent` */
  function Parent(path: string): (r: string)
    ensures r == "." || |r| < |path|
  {
    var name := Basename(path);
    if |name| == |path| then "." else path[..|path| - |name| - 1]
  }
}
