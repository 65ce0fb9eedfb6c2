/** The parts of the Java runtime the backend's behaviour depends on:
    nullable references, exceptions in flight, string concatenation with a
    null operand, `String.trim`, `String.equalsIgnoreCase` and the decimal
    rendering of a non-negative `long`. */
module JavaLang {

  /** A Java reference that may be null. */
  datatype Option<+T> = None | Some(value: T) {
    /** The value, or `default` when the reference is null. */
    function GetOr(default: T): T {
      match this
      case Some(v) => v
      case None => default
    }
  }

  /** A list in which no element is null. */
  predicate NoNulls<T>(xs: seq<Option<T>>) {
    forall i :: 0 <= i < |xs| ==> xs[i].Some?
  }

  datatype ExceptionKind = NullPointer | IndexOutOfBounds | Runtime

  /** A thrown exception; `message` is what `getMessage()` returns. */
  datatype JavaException = JavaException(kind: ExceptionKind, message: Option<string>)

  /** The outcome of a Java call: the value it returned or the exception it threw. */
  datatype Call<+T> = Returns(value: T) | Throws(exception: JavaException)

  /** What `Objects.requireNonNull` throws on a null argument: a null pointer exception without a
      message. */
  const RequireNonNullException := JavaException(NullPointer, None)

  /** What `ArrayList.get(0)` throws on an empty list. */
  const EmptyListGetException := JavaException(IndexOutOfBounds, Some("Index 0 out of bounds for length 0"))

  /** The right operand of `"..." + s`: a null reference is rendered as "null". */
  function Str(s: Option<string>): string {
    match s
    case Some(v) => v
    case None => "null"
  }

  // ---------------------------------------------------------------------
  // String.trim: strips every leading and trailing character <= U+0020.

  predicate IsTrimmed(c: char) {
    c <= ' '
  }

  /** Every character of `s` is one that `trim` removes. */
  predicate AllTrimmed(s: string) {
    forall i :: 0 <= i < |s| ==> IsTrimmed(s[i])
  }

  /** `s` without its leading run of removable characters. */
  function TrimStart(s: string): (r: string)
    ensures |r| <= |s| && r == s[|s| - |r|..]
    ensures forall i :: 0 <= i < |s| - |r| ==> IsTrimmed(s[i])
    ensures |r| > 0 ==> !IsTrimmed(r[0])
    decreases |s|
  {
    if |s| > 0 && IsTrimmed(s[0]) then
      var r := TrimStart(s[1..]);
      assert s[1..][|s| - 1 - |r|..] == s[|s| - |r|..];
      assert forall i :: 1 <= i < |s| ==> s[i] == s[1..][i - 1];
      r
    else
      s
  }

  /** `s` without its trailing run of removable characters. */
  function TrimEnd(s: string): (r: string)
    ensures |r| <= |s| && r == s[..|r|]
    ensures forall i :: |r| <= i < |s| ==> IsTrimmed(s[i])
    ensures |r| > 0 ==> !IsTrimmed(r[|r| - 1])
    decreases |s|
  {
    if |s| > 0 && IsTrimmed(s[|s| - 1]) then
      var r := TrimEnd(s[..|s| - 1]);
      assert s[..|s| - 1][..|r|] == s[..|r|];
      assert forall i :: 0 <= i < |s| - 1 ==> s[i] == s[..|s| - 1][i];
      r
    else
      s
  }

  /** `String.trim()`. */
  function Trim(s: string): string {
    TrimEnd(TrimStart(s))
  }

  /** `s.trim().isEmpty()` holds exactly when every character of `s` is at most U+0020. */
  lemma TrimEmptyIff(s: string)
    ensures Trim(s) == [] <==> AllTrimmed(s)
  {
    var t := TrimStart(s);
    var k := |s| - |t|;
    assert forall i :: k <= i < |s| ==> s[i] == t[i - k];
  }

  /** Trimming keeps a contiguous part of the string with no removable character at either end. */
  lemma TrimIsInfix(s: string)
    ensures exists i, j :: 0 <= i <= j <= |s| && Trim(s) == s[i..j]
    ensures |Trim(s)| > 0 ==> !IsTrimmed(Trim(s)[0]) && !IsTrimmed(Trim(s)[|Trim(s)| - 1])
  {
    var t := TrimStart(s);
    var r := TrimEnd(t);
    var k := |s| - |t|;
    assert r == t[..|r|] == s[k..][..|r|] == s[k..k + |r|];
    if |r| > 0 {
      assert r[0] == t[0];
    }
  }

  // ---------------------------------------------------------------------
  // String.equalsIgnoreCase. Java compares character by character: two
  // characters match when they are equal, when their upper-case forms are
  // equal, or when the lower-case forms of their upper-case forms are equal.
  // The case mappings modelled are those of the ASCII letters plus the four
  // characters outside ASCII whose single-character case mapping is an ASCII
  // letter: U+0131 dotless i and U+017F long s upper-case to 'I' and 'S';
  // U+0130 dotted capital I and U+212A Kelvin sign lower-case to 'i' and 'k'.

  function ToUpper(c: char): char {
    if 'a' <= c <= 'z' then (c as int - 32) as char
    else if c == '\U{0131}' then 'I'
    else if c == '\U{017F}' then 'S'
    else c
  }

  function ToLower(c: char): char {
    if 'A' <= c <= 'Z' then (c as int + 32) as char
    else if c == '\U{0130}' then 'i'
    else if c == '\U{212A}' then 'k'
    else c
  }

  predicate CharEqualsIgnoreCase(a: char, b: char) {
    || a == b
    || ToUpper(a) == ToUpper(b)
    || ToLower(ToUpper(a)) == ToLower(ToUpper(b))
  }

  /** `a.equalsIgnoreCase(b)` for a non-null receiver: false when `b` is null. */
  predicate EqualsIgnoreCase(a: string, b: Option<string>) {
    && b.Some?
    && |a| == |b.value|
    && forall i :: 0 <= i < |a| ==> CharEqualsIgnoreCase(a[i], b.value[i])
  }

  // ---------------------------------------------------------------------
  // Decimal rendering of a non-negative long, as in `"fes_" + millis`.

  predicate IsDigit(c: char) {
    '0' <= c <= '9'
  }

  predicate AllDigits(s: string) {
    forall i :: 0 <= i < |s| ==> IsDigit(s[i])
  }

  function DigitChar(d: nat): (c: char)
    requires d < 10
    ensures IsDigit(c) && c as int - '0' as int == d
  {
    ('0' as int + d) as char
  }

  /** The decimal numeral of `n`, as `Long.toString` writes it. */
  function NatToString(n: nat): string
    decreases n
  {
    if n < 10 then [DigitChar(n)] else NatToString(n / 10) + [DigitChar(n % 10)]
  }

  /** The value of a numeral; the partner of `NatToString`. */
  function ParseNat(s: string): nat
    requires AllDigits(s)
  {
    if |s| == 0 then 0
    else ParseNat(s[..|s| - 1]) * 10 + (s[|s| - 1] as int - '0' as int)
  }

  /** A numeral is non-empty, all digits, without a leading zero unless it is "0",
      and reads back as the number it renders. */
  lemma {:induction false} ParseNatToString(n: nat)
    ensures AllDigits(NatToString(n))
    ensures |NatToString(n)| > 0
    ensures NatToString(n)[0] == '0' ==> n == 0
    ensures ParseNat(NatToString(n)) == n
    decreases n
  {
    if n >= 10 {
      ParseNatToString(n / 10);
      var s := NatToString(n);
      var p := NatToString(n / 10);
      assert s == p + [DigitChar(n % 10)];
      assert s[..|s| - 1] == p;
      assert s[0] == p[0];
    }
  }

  /** Different numbers render as different numerals. */
  lemma NatToStringInjective(m: nat, n: nat)
    requires NatToString(m) == NatToString(n)
    ensures m == n
  {
    ParseNatToString(m);
    ParseNatToString(n);
  }
}
