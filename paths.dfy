/**
 * File-name arithmetic used by the scanners and the file processor:
 * lower-casing, Python's `str.rfind`, `os.path.basename`, the pathlib
 * `suffix`/`stem` rule, the `os.path.splitext` rule, decimal numerals and the
 * directory-pruning predicate of the directory walks.
 */
module PathNames {

  /** `str.lower()` restricted to ASCII letters. */
  function LowerChar(c: char): char
  {
    if 'A' <= c <= 'Z' then (c as int + 32) as char else c
  }

  function Lower(s: string): (r: string)
    ensures |r| == |s|
    ensures forall i :: 0 <= i < |s| ==> r[i] == LowerChar(s[i])
  {
    seq(|s|, i requires 0 <= i < |s| => LowerChar(s[i]))
  }

  /** Lower-casing twice is lower-casing once. */
  lemma LowerIdempotent(s: string)
    ensures Lower(Lower(s)) == Lower(s)
  {
  }

  function StartsWith(s: string, prefix: string): bool
  {
    |prefix| <= |s| && s[..|prefix|] == prefix
  }

  /** Python's `s.rfind(c)`: the last index holding `c`, or -1. */
  function RFind(s: string, c: char): (r: int)
    ensures -1 <= r < |s|
    ensures r >= 0 ==> s[r] == c
    ensures forall k :: r < k < |s| ==> s[k] != c
  {
    if |s| == 0 then -1
    else if s[|s| - 1] == c then |s| - 1
    else RFind(s[..|s| - 1], c)
  }

  /** The last occurrence is the one with no later occurrence. */
  lemma RFindAt(s: string, c: char, i: nat)
    requires i < |s| && s[i] == c
    requires forall k :: i < k < |s| ==> s[k] != c
    ensures RFind(s, c) == i
  {
  }

  /** `os.path.basename` / pathlib `name` with '/' as the separator. */
  function BaseName(path: string): (r: string)
    ensures |r| <= |path| && r == path[|path| - |r|..]
    ensures forall k :: |path| - |r| <= k < |path| ==> path[k] != '/'
  {
    path[RFind(path, '/') + 1..]
  }

  /**
   * pathlib's `PurePath.suffix` of a final component: from the last '.' on,
   * provided that dot is neither the first nor the last character.
   */
  function Suffix(name: string): (r: string)
    ensures r == [] || (r[0] == '.' && 2 <= |r| && '.' !in r[1..] && |r| < |name|)
    ensures r == [] <==> !(0 < RFind(name, '.') < |name| - 1)
  {
    var i := RFind(name, '.');
    if 0 < i < |name| - 1 then
      assert forall k :: 1 <= k < |name[i..]| ==> name[i..][k] == name[i + k];
      name[i..]
    else []
  }

  /** pathlib's `PurePath.stem`: the name without its suffix. */
  function Stem(name: string): (r: string)
    ensures r + Suffix(name) == name
    ensures name != [] ==> r != []
  {
    var i := RFind(name, '.');
    if 0 < i < |name| - 1 then name[..i] else name
  }

  /** A name is its stem followed by its suffix, and the stem is never empty unless the name is. */
  lemma StemSuffix(name: string)
    ensures Stem(name) + Suffix(name) == name
    ensures name != [] ==> Stem(name) != []
  {
  }

  /** Every character of `p[lo..hi]` is a dot. */
  function AllDots(p: string, lo: int, hi: int): bool
    requires 0 <= lo && hi <= |p|
  {
    forall k :: lo <= k < hi ==> p[k] == '.'
  }

  /**
   * `p[d]` is where `os.path.splitext` cuts: the last dot of `p`, after the
   * last '/', with some non-dot before it in the final component.
   */
  predicate ExtensionDot(p: string, d: int)
  {
    && RFind(p, '/') < d < |p|
    && p[d] == '.'
    && !AllDots(p, RFind(p, '/') + 1, d)
    && forall k :: d < k < |p| ==> p[k] != '.'
  }

  /**
   * `os.path.splitext` on POSIX: the extension starts at the last '.' of the
   * final component, unless that component has only dots before it.
   */
  function SplitExt(p: string): (r: (string, string))
    ensures r.0 + r.1 == p
    ensures r.1 == [] || r.1[0] == '.'
    ensures r.1 != [] ==> ExtensionDot(p, |r.0|) && '/' !in r.1
    ensures r.1 == [] <==> forall d :: !ExtensionDot(p, d)
  {
    var sep := RFind(p, '/');
    var dot := RFind(p, '.');
    if dot > sep && !AllDots(p, sep + 1, dot) then
      assert forall k :: 0 <= k < |p[dot..]| ==> p[dot..][k] == p[dot + k];
      assert ExtensionDot(p, dot);
      (p[..dot], p[dot..])
    else
      (p, [])
  }

  function DigitChar(d: nat): char
    requires d < 10
  {
    ('0' as int + d) as char
  }

  /** `str(n)` for a natural number. */
  function Decimal(n: nat): (r: string)
    ensures 1 <= |r|
    ensures forall i :: 0 <= i < |r| ==> '0' <= r[i] <= '9'
  {
    if n < 10 then [DigitChar(n)] else Decimal(n / 10) + [DigitChar(n % 10)]
  }

  /** Different numbers are written differently. */
  lemma {:induction false} DecimalInjective(a: nat, b: nat)
    requires Decimal(a) == Decimal(b)
    ensures a == b
  {
    if a >= 10 && b >= 10 {
      var da, db := Decimal(a), Decimal(b);
      assert da[|da| - 1] == DigitChar(a % 10) && db[|db| - 1] == DigitChar(b % 10);
      assert da[..|da| - 1] == Decimal(a / 10) && db[..|db| - 1] == Decimal(b / 10);
      DecimalInjective(a / 10, b / 10);
    }
  }

  /** The directories both directory walks refuse to enter (compared lower-cased). */
  const ExcludedDirectories: set<string> :=
    {"__pycache__", "node_modules", ".git", ".svn", "build", "dist", "target", "bin", "obj"}

  /**
   * The pruning rule of the text and image scanners' `os.walk`: a directory is
   * descended into iff it is not hidden and its lower-cased name is not excluded.
   */
  function IsWalkedDirectory(d: string): (r: bool)
    ensures r == (!StartsWith(Lower(d), ".") && Lower(Lower(d)) !in ExcludedDirectories)
  {
    LowerIdempotent(d);
    !StartsWith(d, ".") && Lower(d) !in ExcludedDirectories
  }
}
