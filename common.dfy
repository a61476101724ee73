/**
 * Values shared by every handler: optional request fields, the error a handler
 * throws, and the handful of JavaScript string operations the handlers rely on
 * (truthiness, `trim`, `startsWith`, `replace` of the first occurrence,
 * `toLowerCase`, `parseInt(s, 10)`) and the ObjectId validity test.
 */
module Base {

  /** A request field or stored field that may be `undefined`. */
  datatype Option<T> = None | Some(value: T) {
    function GetOr(default: T): T {
      match this
      case Some(v) => v
      case None => default
    }
  }

  /**
   * What a handler throws. An `ApiError` carries the HTTP status and message the
   * handler chose; anything else that is thrown (a failed token verification, a
   * failed upload) reaches the framework's default error handler.
   */
  datatype Failure = ApiError(status: nat, message: string) | Uncaught(reason: string)

  datatype Result<T> = Ok(value: T) | Err(failure: Failure)

  /** The status code the client sees for a failure. */
  function StatusOf(f: Failure): nat {
    match f
    case ApiError(s, _) => s
    case Uncaught(_) => 500
  }

  /** Identifiers are the hexadecimal string form of a document's ObjectId. */
  type UserId = string
  type VideoId = string

  /** A JavaScript value that is a string or `undefined` is truthy when it is a non-empty string. */
  predicate Truthy(s: Option<string>) {
    s.Some? && s.value != ""
  }

  // ---------------------------------------------------------------------------
  // Whitespace and String.prototype.trim
  // ---------------------------------------------------------------------------

  /** The WhiteSpace and LineTerminator code points of ECMAScript, which `trim` removes. */
  predicate IsWhitespace(c: char) {
    c == '\t' || c == '\n' || c == '\U{000B}' || c == '\U{000C}' || c == '\r' || c == ' '
    || c == '\U{00A0}' || c == '\U{1680}' || ('\U{2000}' <= c <= '\U{200A}')
    || c == '\U{2028}' || c == '\U{2029}' || c == '\U{202F}' || c == '\U{205F}'
    || c == '\U{3000}' || c == '\U{FEFF}'
  }

  predicate AllWhitespace(s: string) {
    forall i :: 0 <= i < |s| ==> IsWhitespace(s[i])
  }

  /** `s` with its leading whitespace removed: a suffix of `s` that does not start with whitespace. */
  function TrimStart(s: string): (r: string)
    ensures |r| <= |s| && r == s[|s| - |r|..]
    ensures r == [] || !IsWhitespace(r[0])
    ensures AllWhitespace(s[..|s| - |r|])
  {
    if s != [] && IsWhitespace(s[0]) then
      var tail := s[1..];
      var r := TrimStart(tail);
      assert s[..|s| - |r|] == [s[0]] + tail[..|tail| - |r|];
      assert s[|s| - |r|..] == tail[|tail| - |r|..];
      r
    else
      s
  }

  /** `s` with its trailing whitespace removed: a prefix of `s` that does not end with whitespace. */
  function TrimEnd(s: string): (r: string)
    ensures |r| <= |s| && r == s[..|r|]
    ensures r == [] || !IsWhitespace(r[|r| - 1])
    ensures AllWhitespace(s[|r|..])
  {
    if s != [] && IsWhitespace(s[|s| - 1]) then
      var init := s[..|s| - 1];
      var r := TrimEnd(init);
      assert s[|r|..] == init[|r|..] + [s[|s| - 1]];
      assert s[..|r|] == init[..|r|];
      r
    else
      s
  }

  /** String.prototype.trim. */
  function Trim(s: string): string {
    TrimEnd(TrimStart(s))
  }

  lemma TrimStartOfWhitespace(s: string)
    requires AllWhitespace(s)
    ensures TrimStart(s) == []
  {
    if s != [] { TrimStartOfWhitespace(s[1..]); }
  }

  /** `trim()` yields the empty string exactly when every character is whitespace. */
  lemma TrimEmptyIff(s: string)
    ensures Trim(s) == "" <==> AllWhitespace(s)
  {
    var t := TrimStart(s);
    if Trim(s) == "" {
      assert AllWhitespace(t[0..]);
      assert t == [];
      assert s[..|s|] == s;
    }
    if AllWhitespace(s) {
      TrimStartOfWhitespace(s);
    }
  }

  /** `field?.trim() === ""`: a present string made only of whitespace (an absent field is not blank). */
  predicate BlankIfPresent(s: Option<string>) {
    s.Some? && Trim(s.value) == ""
  }

  /** `!field?.trim()`: an absent field, or one made only of whitespace. */
  predicate MissingOrBlank(s: Option<string>) {
    s.None? || Trim(s.value) == ""
  }

  // ---------------------------------------------------------------------------
  // startsWith, indexOf and replace (first occurrence)
  // ---------------------------------------------------------------------------

  predicate StartsWith(s: string, prefix: string) {
    |prefix| <= |s| && s[..|prefix|] == prefix
  }

  predicate OccursAt(s: string, pat: string, k: nat) {
    k + |pat| <= |s| && s[k..k + |pat|] == pat
  }

  /** The first index at or after `from` where `pat` occurs in `s`. */
  function IndexOfFrom(s: string, pat: string, from: nat): (r: Option<nat>)
    requires from <= |s|
    ensures r.Some? ==> from <= r.value && OccursAt(s, pat, r.value)
    ensures r.Some? ==> forall k :: from <= k < r.value ==> !OccursAt(s, pat, k)
    ensures r.None? ==> forall k :: from <= k <= |s| ==> !OccursAt(s, pat, k)
    decreases |s| - from
  {
    if from + |pat| > |s| then None
    else if s[from..from + |pat|] == pat then Some(from)
    else if from == |s| then None
    else IndexOfFrom(s, pat, from + 1)
  }

  /** String.prototype.replace with a string pattern: only the first occurrence is replaced. */
  function ReplaceFirst(s: string, pat: string, replacement: string): string {
    match IndexOfFrom(s, pat, 0)
    case None => s
    case Some(k) => s[..k] + replacement + s[k + |pat|..]
  }

  /** Removing a prefix with `replace(prefix, "")` leaves the rest of the string. */
  lemma ReplacePrefixWithEmpty(s: string, prefix: string)
    requires StartsWith(s, prefix)
    ensures ReplaceFirst(s, prefix, "") == s[|prefix|..]
  {
    assert OccursAt(s, prefix, 0);
    assert IndexOfFrom(s, prefix, 0) == Some(0);
  }

  // ---------------------------------------------------------------------------
  // toLowerCase (ASCII letters)
  // ---------------------------------------------------------------------------

  function LowerChar(c: char): char {
    if 'A' <= c <= 'Z' then (c as int + 32) as char else c
  }

  function Lower(s: string): (r: string)
    ensures |r| == |s|
  {
    if s == [] then [] else [LowerChar(s[0])] + Lower(s[1..])
  }

  lemma {:induction false} LowerAt(s: string, i: nat)
    requires i < |s|
    ensures Lower(s)[i] == LowerChar(s[i])
  {
    if i > 0 { LowerAt(s[1..], i - 1); }
  }

  /** Lower-casing twice is lower-casing once. */
  lemma LowerIdempotent(s: string)
    ensures Lower(Lower(s)) == Lower(s)
  {
    forall i | 0 <= i < |s| ensures Lower(Lower(s))[i] == Lower(s)[i] {
      LowerAt(s, i);
      LowerAt(Lower(s), i);
    }
  }

  /** Lower-casing keeps whitespace and non-whitespace where they are, so it keeps blankness. */
  lemma LowerKeepsBlank(s: string)
    ensures AllWhitespace(Lower(s)) <==> AllWhitespace(s)
  {
    if AllWhitespace(s) {
      forall i | 0 <= i < |s| ensures IsWhitespace(Lower(s)[i]) { LowerAt(s, i); }
    }
    if AllWhitespace(Lower(s)) {
      forall i | 0 <= i < |s| ensures IsWhitespace(s[i]) {
        LowerAt(s, i);
        assert IsWhitespace(Lower(s)[i]);
      }
    }
  }

  // ---------------------------------------------------------------------------
  // parseInt(s, 10)
  // ---------------------------------------------------------------------------

  predicate IsDigit(c: char) {
    '0' <= c <= '9'
  }

  predicate AllDigits(s: string) {
    forall i :: 0 <= i < |s| ==> IsDigit(s[i])
  }

  /** The length of the run of decimal digits at the start of `s`. */
  function DigitRun(s: string): (n: nat)
    ensures n <= |s| && AllDigits(s[..n])
    ensures n < |s| ==> !IsDigit(s[n])
  {
    if s != [] && IsDigit(s[0]) then
      var n := 1 + DigitRun(s[1..]);
      assert s[..n] == [s[0]] + s[1..][..n - 1];
      n
    else
      0
  }

  lemma DigitRunOfDigits(s: string)
    requires AllDigits(s)
    ensures DigitRun(s) == |s|
  {
    if s != [] { DigitRunOfDigits(s[1..]); }
  }

  /** The value of a string of decimal digits, most significant first. */
  function DigitsValue(d: string): nat
    requires AllDigits(d)
  {
    if d == [] then 0 else 10 * DigitsValue(d[..|d| - 1]) + (d[|d| - 1] as int - '0' as int)
  }

  /**
   * `parseInt(s, 10)`: skip leading whitespace, read an optional sign, then the
   * longest run of digits; `None` stands for NaN (no digit there).
   */
  function ParseInt10(s: string): Option<int> {
    var t := TrimStart(s);
    var negative := t != [] && t[0] == '-';
    var body := if t != [] && (t[0] == '-' || t[0] == '+') then t[1..] else t;
    var n := DigitRun(body);
    if n == 0 then None
    else
      var v: int := DigitsValue(body[..n]);
      Some(if negative then -v else v)
  }

  /** The decimal numeral of `n`, with no leading zero. */
  function NatToString(n: nat): (r: string)
    ensures |r| > 0 && AllDigits(r)
    ensures |r| > 1 ==> r[0] != '0'
  {
    if n < 10 then [('0' as int + n) as char]
    else NatToString(n / 10) + [('0' as int + n % 10) as char]
  }

  lemma {:induction false} DigitsValueOfNatToString(n: nat)
    ensures DigitsValue(NatToString(n)) == n
  {
    if n >= 10 {
      var r := NatToString(n);
      assert r[..|r| - 1] == NatToString(n / 10);
      DigitsValueOfNatToString(n / 10);
    }
  }

  /** `parseInt` reads back what a decimal numeral says: the page and limit round trip. */
  lemma ParseIntOfNatToString(n: nat)
    ensures ParseInt10(NatToString(n)) == Some(n)
  {
    var s := NatToString(n);
    assert !IsWhitespace(s[0]) && s[0] != '-' && s[0] != '+';
    assert TrimStart(s) == s;
    DigitRunOfDigits(s);
    assert s[..|s|] == s;
    DigitsValueOfNatToString(n);
  }

  // ---------------------------------------------------------------------------
  // ObjectId validity
  // ---------------------------------------------------------------------------

  predicate IsHexDigit(c: char) {
    IsDigit(c) || ('a' <= c <= 'f') || ('A' <= c <= 'F')
  }

  /**
   * `ObjectId.isValid` for a string argument: twelve characters (read as twelve
   * raw bytes) or twenty-four hexadecimal digits.
   */
  predicate IsValidObjectId(s: string) {
    |s| == 12 || IsHexId(s)
  }

  /** Twenty-four hexadecimal digits, in either case. */
  predicate IsHexId(s: string) {
    |s| == 24 && forall i :: 0 <= i < |s| ==> IsHexDigit(s[i])
  }

  /**
   * The ObjectId an id string denotes, written as the store writes it: a hex
   * id in lower case (hexadecimal digits ignore case), any other id as given.
   */
  function ObjectIdKey(s: string): (r: string)
    ensures |r| == |s|
    ensures IsHexId(s) ==> IsHexId(r)
    ensures IsValidObjectId(s) ==> IsValidObjectId(r)
  {
    if IsHexId(s) then
      forall i | 0 <= i < |s| ensures IsHexDigit(Lower(s)[i]) { LowerAt(s, i); }
      Lower(s)
    else s
  }

  /** Two spellings of a hex id that differ only in letter case denote the same ObjectId. */
  lemma ObjectIdKeyIgnoresCase(s: string)
    requires IsHexId(s)
    ensures IsHexId(Lower(s))
    ensures ObjectIdKey(Lower(s)) == ObjectIdKey(s)
  {
    assert ObjectIdKey(s) == Lower(s);
    LowerIdempotent(s);
  }

  /** The key of a key is itself. */
  lemma ObjectIdKeyIdempotent(s: string)
    ensures ObjectIdKey(ObjectIdKey(s)) == ObjectIdKey(s)
  {
    if IsHexId(s) { ObjectIdKeyIgnoresCase(s); }
  }
}
