/** Small string helpers of the ETL (etl_vouchers/utils.py), and the decimal
    rendering that Python's f-strings apply to the integers the ETL prints. */
module Utils {

  predicate EndsWithSlash(path: string) {
    |path| > 0 && path[|path| - 1] == '/'
  }

  /** `sanitize_path`: append a "/" unless the path already ends with one. */
  function SanitizePath(path: string): (r: string)
    ensures EndsWithSlash(r)
    ensures EndsWithSlash(path) ==> r == path
    ensures !EndsWithSlash(path) ==> |r| == |path| + 1 && r[..|path|] == path
  {
    if !EndsWithSlash(path) then path + "/" else path
  }

  /** Normalising a normalised path changes nothing. */
  lemma SanitizePathIdempotent(path: string)
    ensures SanitizePath(SanitizePath(path)) == SanitizePath(path)
  {
  }

  /** The four cases of the utility's own parametrised test. */
  lemma SanitizePathExamples()
    ensures SanitizePath("./test/path") == "./test/path/"
    ensures SanitizePath("./test/path/") == "./test/path/"
    ensures SanitizePath("./") == "./"
    ensures SanitizePath(".") == "./"
  {
  }

  predicate IsDigit(c: char) {
    '0' <= c <= '9'
  }

  function DigitChar(d: nat): (c: char)
    requires d < 10
    ensures IsDigit(c)
  {
    "0123456789"[d]
  }

  function DigitValue(c: char): (d: nat)
    requires IsDigit(c)
    ensures d < 10
  {
    (c as int - '0' as int) as nat
  }

  /** Decimal rendering of a natural number, as `str(n)` gives it. */
  function NatToString(n: nat): (s: string)
    ensures |s| > 0
    ensures forall i :: 0 <= i < |s| ==> IsDigit(s[i])
    ensures n > 0 ==> s[0] != '0'
    decreases n
  {
    if n < 10 then [DigitChar(n)] else NatToString(n / 10) + [DigitChar(n % 10)]
  }

  /** Value of a string of decimal digits. */
  function ParseNat(s: string): nat
    requires forall i :: 0 <= i < |s| ==> IsDigit(s[i])
    decreases |s|
  {
    if s == [] then 0 else 10 * ParseNat(s[..|s| - 1]) + DigitValue(s[|s| - 1])
  }

  /** The decimal rendering loses nothing: reading it back gives the number. */
  lemma {:induction false} NatToStringRoundTrip(n: nat)
    ensures ParseNat(NatToString(n)) == n
    decreases n
  {
    var s := NatToString(n);
    if n >= 10 {
      NatToStringRoundTrip(n / 10);
      assert s[..|s| - 1] == NatToString(n / 10);
    }
  }
}
