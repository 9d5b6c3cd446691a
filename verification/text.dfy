/**
 * Text helpers shared by the model: decimal rendering of counters and ids
 * (`std::to_string`), prefix tests (`strncmp(text, prefix, n) == 0`), and the
 * part of `std::filesystem::path` that the services use on topics: `filename()`,
 * `parent_path()` and `operator/`.
 */
module Text {
  import opened Wrappers

  predicate IsDigit(c: char) {
    '0' <= c <= '9'
  }

  predicate AllDigits(s: string) {
    forall i :: 0 <= i < |s| ==> IsDigit(s[i])
  }

  function DigitChar(d: nat): (c: char)
    requires d < 10
    ensures IsDigit(c)
  {
    (('0' as int) + d) as char
  }

  function DigitValue(c: char): (d: nat)
    requires IsDigit(c)
    ensures d < 10
  {
    (c as int) - ('0' as int)
  }

  /** Decimal rendering of a natural number, as `std::to_string` prints an unsigned value. */
  function ToDecimal(n: nat): (s: string)
    ensures 1 <= |s|
    ensures AllDigits(s)
    ensures 1 < |s| ==> s[0] != '0'
    decreases n
  {
    if n < 10 then [DigitChar(n)] else ToDecimal(n / 10) + [DigitChar(n % 10)]
  }

  /** The value of a non-empty run of decimal digits, most significant first. */
  function DigitsValue(s: string): nat
    requires AllDigits(s)
    decreases |s|
  {
    if |s| == 0 then 0 else DigitsValue(s[..|s| - 1]) * 10 + DigitValue(s[|s| - 1])
  }

  /** Reads a decimal number; `None` unless the text is a non-empty run of digits. */
  function ParseDecimal(s: string): (r: Option<nat>)
    ensures r.Some? <==> 1 <= |s| && AllDigits(s)
  {
    if 1 <= |s| && AllDigits(s) then Some(DigitsValue(s)) else None
  }

  /** Reading back what `ToDecimal` printed gives the number printed. */
  lemma {:induction false} DecimalRoundTrip(n: nat)
    ensures ParseDecimal(ToDecimal(n)) == Some(n)
    decreases n
  {
    var s := ToDecimal(n);
    if n < 10 {
      assert s == [DigitChar(n)];
      assert s[..0] == [];
    } else {
      DecimalRoundTrip(n / 10);
      var p := ToDecimal(n / 10);
      assert s == p + [DigitChar(n % 10)];
      assert s[..|s| - 1] == p;
      assert DigitValue(DigitChar(n % 10)) == n % 10;
      assert DigitsValue(s) == DigitsValue(p) * 10 + n % 10;
    }
  }

  /** `strncmp(text, prefix, |prefix|) == 0` for a prefix without NUL characters. */
  predicate StartsWith(text: string, prefix: string) {
    |prefix| <= |text| && text[..|prefix|] == prefix
  }

  /** Index of the last '/' in `p`, if any. */
  function LastSeparator(p: string): (r: Option<nat>)
    ensures r.Some? ==> r.value < |p| && p[r.value] == '/'
    ensures r.Some? ==> forall i :: r.value < i < |p| ==> p[i] != '/'
    ensures r.None? ==> forall i :: 0 <= i < |p| ==> p[i] != '/'
    decreases |p|
  {
    if |p| == 0 then None
    else if p[|p| - 1] == '/' then Some(|p| - 1)
    else LastSeparator(p[..|p| - 1])
  }

  /** The last element of a path: the text after the last '/' (the whole text without one). */
  function FileName(p: string): string {
    match LastSeparator(p)
    case None => p
    case Some(k) => p[k + 1..]
  }

  /** The path without its last element: the text before the last '/' ("" without one). */
  function ParentPath(p: string): string {
    match LastSeparator(p)
    case None => ""
    case Some(k) => p[..k]
  }

  /** A path is its parent and its file name around the last separator. */
  lemma SplitPath(p: string)
    ensures '/' in p ==> p == ParentPath(p) + "/" + FileName(p)
    ensures '/' !in p ==> ParentPath(p) == "" && FileName(p) == p
    ensures '/' !in FileName(p)
  {
    match LastSeparator(p)
    case None =>
    case Some(k) =>
      assert p == p[..k] + "/" + p[k + 1..];
  }

  /**
   * `base / leaf` for relative paths on POSIX: an absolute `leaf` replaces the
   * base, otherwise a separator is inserted unless `base` is empty or already
   * ends with one.
   */
  function Join(base: string, leaf: string): (r: string)
    ensures 1 <= |leaf| && leaf[0] == '/' ==> r == leaf
    ensures (|leaf| == 0 || leaf[0] != '/') && 1 <= |base| && base[|base| - 1] != '/' ==>
              r == base + "/" + leaf
  {
    if 1 <= |leaf| && leaf[0] == '/' then leaf
    else if |base| == 0 || base[|base| - 1] == '/' then base + leaf
    else base + "/" + leaf
  }

  /** Joining a single element onto a base splits back into that base and element. */
  lemma JoinSplits(base: string, leaf: string)
    requires 1 <= |base| && base[|base| - 1] != '/'
    requires '/' !in leaf
    ensures FileName(Join(base, leaf)) == leaf
    ensures ParentPath(Join(base, leaf)) == base
  {
    var p := Join(base, leaf);
    var k := |base|;
    assert p == base + "/" + leaf;
    assert p[k] == '/';
    assert forall i :: k < i < |p| ==> p[i] == leaf[i - k - 1];
    assert LastSeparator(p) == Some(k);
    assert p[k + 1..] == leaf;
    assert p[..k] == base;
  }
}
