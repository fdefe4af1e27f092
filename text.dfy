/** The string operations the source relies on: `str.join`, `Path.name`, `str(int)`, `int(str)` and byte literals. */
module Text {
  import opened Bytes

  /** A byte literal `b"..."` written with ASCII characters. */
  function Ascii(s: string): (r: seq<byte>)
    ensures |r| == |s|
    ensures forall i :: 0 <= i < |s| ==> r[i] == (s[i] as int) % 256
  {
    seq(|s|, i requires 0 <= i < |s| => (s[i] as int) % 256)
  }

  /** `sep.join(parts)`. */
  function Join(parts: seq<string>, sep: string): (r: string)
    decreases |parts|
  {
    if parts == [] then ""
    else if |parts| == 1 then parts[0]
    else Join(parts[..|parts| - 1], sep) + sep + parts[|parts| - 1]
  }

  /** A join starts with the first part's first character. */
  lemma {:induction false} JoinHead(parts: seq<string>, sep: string)
    requires |parts| > 0 && |parts[0]| > 0
    ensures |Join(parts, sep)| > 0 && Join(parts, sep)[0] == parts[0][0]
    decreases |parts|
  {
    if |parts| > 1 {
      JoinHead(parts[..|parts| - 1], sep);
    }
  }

  /** `Path(path).name`: the text after the last '/'. */
  function Basename(path: string): (r: string)
    ensures '/' !in r
    ensures |r| <= |path| && path[|path| - |r|..] == r
    decreases |path|
  {
    if path == [] || path[|path| - 1] == '/' then ""
    else Basename(path[..|path| - 1]) + [path[|path| - 1]]
  }

  lemma {:induction false} BasenameAfterSlash(dir: string, name: string)
    requires '/' !in name
    ensures Basename(dir + "/" + name) == name
    decreases |name|
  {
    if name == [] {
      assert (dir + "/" + name)[|dir + "/" + name| - 1] == '/';
    } else {
      var n := |name|;
      BasenameAfterSlash(dir, name[..n - 1]);
      assert (dir + "/" + name)[..|dir| + 1 + n - 1] == dir + "/" + name[..n - 1];
      assert name == name[..n - 1] + [name[n - 1]];
    }
  }

  /** The file name of a joined torrent path is its last component, when no component holds a '/'. */
  lemma {:induction false} BasenameOfJoin(parts: seq<string>)
    requires |parts| > 0
    requires '/' !in parts[|parts| - 1]
    ensures Basename(Join(parts, "/")) == parts[|parts| - 1]
  {
    var n := |parts|;
    if n == 1 {
      BasenameWhole(parts[0]);
    } else {
      BasenameAfterSlash(Join(parts[..n - 1], "/"), parts[n - 1]);
    }
  }

  lemma {:induction false} BasenameWhole(name: string)
    requires '/' !in name
    ensures Basename(name) == name
    decreases |name|
  {
    if name != [] {
      BasenameWhole(name[..|name| - 1]);
      assert name == name[..|name| - 1] + [name[|name| - 1]];
    }
  }

  /** A suffix without '/' that ends a path also ends its file name. */
  lemma {:induction false} BasenameKeepsSuffix(path: string, suffix: string)
    requires |suffix| <= |path| && path[|path| - |suffix|..] == suffix
    requires '/' !in suffix
    ensures |suffix| <= |Basename(path)| && Basename(path)[|Basename(path)| - |suffix|..] == suffix
    decreases |suffix|
  {
    if suffix != [] {
      var n := |path|;
      var init := path[..n - 1];
      var s := suffix[..|suffix| - 1];
      assert path[n - 1] == suffix[|suffix| - 1];
      assert init[|init| - |s|..] == s;
      BasenameKeepsSuffix(init, s);
      assert Basename(path) == Basename(init) + [path[n - 1]];
    }
  }

  function DigitChar(d: nat): (c: char)
    requires d < 10
    ensures '0' <= c <= '9'
  {
    (('0' as int) + d) as char
  }

  predicate IsDigit(c: char) {
    '0' <= c <= '9'
  }

  /** The decimal digits of n, most significant first. */
  function Digits(n: nat): (r: string)
    ensures |r| >= 1
    ensures forall i :: 0 <= i < |r| ==> IsDigit(r[i])
  {
    if n < 10 then [DigitChar(n)] else Digits(n / 10) + [DigitChar(n % 10)]
  }

  /** `str(n)` (and so f"-{n}" once the dash is added). */
  function DecimalString(n: int): (r: string)
    ensures 0 <= n < 10 ==> r == [DigitChar(n)]
  {
    if n < 0 then "-" + Digits(-n) else Digits(n)
  }

  /** `int(s)` on a string of decimal digits. */
  function DigitsValue(s: string): (r: nat)
    requires forall i :: 0 <= i < |s| ==> IsDigit(s[i])
  {
    if s == [] then 0
    else
      var c := s[|s| - 1];
      assert IsDigit(c) && c as int >= '0' as int;
      10 * DigitsValue(s[..|s| - 1]) + (c as int - '0' as int)
  }

  lemma DigitsValueOne(c: char)
    requires IsDigit(c)
    ensures DigitsValue([c]) == c as int - '0' as int
  {
    assert [c][..0] == [];
  }

  lemma {:induction false} DigitsRoundTrip(n: nat)
    ensures DigitsValue(Digits(n)) == n
  {
    if n >= 10 {
      DigitsRoundTrip(n / 10);
      var s := Digits(n);
      assert s[..|s| - 1] == Digits(n / 10);
    }
  }
}
