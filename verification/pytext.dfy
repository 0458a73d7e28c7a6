/**
 * The two pieces of Python string handling the request handlers rely on:
 * `int(s)` applied to a form field, and `str.upper()` applied to a ticker
 * symbol. Both are modelled on ASCII text.
 */
module PyText {
  import opened Wrappers

  /** The ASCII characters `int()` strips around its argument: space, tab,
      line feed, vertical tab, form feed and carriage return. */
  predicate IsSpace(c: char) {
    c == ' ' || '\t' <= c <= '\r'
  }

  predicate IsDigit(c: char) {
    '0' <= c <= '9'
  }

  function DigitValue(c: char): (d: nat)
    requires IsDigit(c)
    ensures d < 10
  {
    c as int - '0' as int
  }

  /** Drops leading whitespace. */
  function TrimStart(s: string): (r: string)
    ensures |r| <= |s| && r == s[|s| - |r|..]
    ensures forall i :: 0 <= i < |s| - |r| ==> IsSpace(s[i])
    ensures r == [] || !IsSpace(r[0])
  {
    if |s| > 0 && IsSpace(s[0]) then TrimStart(s[1..]) else s
  }

  /** Drops trailing whitespace. */
  function TrimEnd(s: string): (r: string)
    ensures |r| <= |s| && r == s[..|r|]
    ensures forall i :: |r| <= i < |s| ==> IsSpace(s[i])
    ensures r == [] || !IsSpace(r[|r| - 1])
  {
    if |s| > 0 && IsSpace(s[|s| - 1]) then TrimEnd(s[..|s| - 1]) else s
  }

  /** Drops whitespace at both ends, as `int()` does before reading digits. */
  function Trim(s: string): (r: string)
    ensures r == [] || (!IsSpace(r[0]) && !IsSpace(r[|r| - 1]))
    ensures (forall i :: 0 <= i < |s| ==> IsSpace(s[i])) ==> r == []
  {
    TrimEnd(TrimStart(s))
  }

  /** The digits of a decimal literal: at least one digit, starting and
      ending with a digit, with single underscores allowed between digits. */
  predicate IsDigitRun(t: string) {
    && |t| > 0 && IsDigit(t[0]) && IsDigit(t[|t| - 1])
    && (forall i :: 0 <= i < |t| ==> IsDigit(t[i]) || t[i] == '_')
    && (forall i :: 0 <= i < |t| - 1 ==> IsDigit(t[i]) || IsDigit(t[i + 1]))
  }

  /** The number a run of digits denotes, underscores ignored. */
  function RunValue(t: string): nat {
    if |t| == 0 then 0
    else if IsDigit(t[|t| - 1]) then RunValue(t[..|t| - 1]) * 10 + DigitValue(t[|t| - 1])
    else RunValue(t[..|t| - 1])
  }

  /** Python's default cap on the digits `int()` converts from a decimal
      string (`sys.int_info.default_max_str_digits`): a longer number raises
      ValueError. */
  const MaxStrDigits: nat := 4300

  /** The number of decimal digits in a text; signs and underscores do not count. */
  function DigitCount(t: string): (n: nat)
    ensures n <= |t|
  {
    if |t| == 0 then 0 else (if IsDigit(t[0]) then 1 else 0) + DigitCount(t[1..])
  }

  /** In a text of digits only, every character counts. */
  lemma {:induction false} DigitCountOfDigits(t: string)
    requires forall i :: 0 <= i < |t| ==> IsDigit(t[i])
    ensures DigitCount(t) == |t|
  {
    if |t| > 0 {
      DigitCountOfDigits(t[1..]);
    }
  }

  /** The stripped text `int()` accepts: an optional sign, then a run of digits. */
  predicate IsSignedRun(t: string) {
    IsDigitRun(t) || (|t| > 0 && (t[0] == '+' || t[0] == '-') && IsDigitRun(t[1..]))
  }

  /** `int(s)` on a string: `Some(n)` where Python returns n, `None` where it
      raises ValueError. */
  function ParseInt(s: string): (r: Option<int>)
    ensures (forall i :: 0 <= i < |s| ==> IsSpace(s[i])) ==> r == None
  {
    ReadSigned(Trim(s))
  }

  /** An optional sign followed by a run of digits, with nothing around it. */
  function ReadSigned(t: string): Option<int> {
    if DigitCount(t) > MaxStrDigits then None
    else if |t| > 0 && (t[0] == '+' || t[0] == '-') then
      var digits := t[1..];
      var magnitude: int := RunValue(digits);
      if IsDigitRun(digits) then Some(if t[0] == '-' then -magnitude else magnitude)
      else None
    else if IsDigitRun(t) then Some(RunValue(t))
    else None
  }

  /** What `int()` makes of a field: a number exactly when the stripped text is
      a signed run of digits within the digit cap, and then the value of the
      digits, negated after a minus sign. */
  lemma ParseIntReads(s: string)
    ensures ParseInt(s).Some? <==> IsSignedRun(Trim(s)) && DigitCount(Trim(s)) <= MaxStrDigits
    ensures ParseInt(s).Some? && IsDigitRun(Trim(s)) ==> ParseInt(s).value == RunValue(Trim(s))
    ensures ParseInt(s).Some? && |Trim(s)| > 0 && Trim(s)[0] == '+' ==> ParseInt(s).value == RunValue(Trim(s)[1..])
    ensures ParseInt(s).Some? && |Trim(s)| > 0 && Trim(s)[0] == '-' ==> ParseInt(s).value + RunValue(Trim(s)[1..]) == 0
  {
  }

  function DigitChar(d: nat): (c: char)
    requires d < 10
    ensures IsDigit(c) && DigitValue(c) == d
  {
    ('0' as int + d) as char
  }

  /** `str(n)` for a natural number: its shortest decimal spelling. */
  function ShowNat(n: nat): (r: string)
    ensures IsDigitRun(r)
    ensures forall i :: 0 <= i < |r| ==> IsDigit(r[i])
    ensures RunValue(r) == n
    ensures n < 10 <==> |r| == 1
  {
    if n < 10 then [DigitChar(n)]
    else
      var prefix := ShowNat(n / 10);
      var r := prefix + [DigitChar(n % 10)];
      assert r[..|r| - 1] == prefix;
      r
  }

  /** `str(n)` for any integer. */
  function ShowInt(n: int): (r: string)
    ensures |r| > 0 && !IsSpace(r[0]) && !IsSpace(r[|r| - 1])
  {
    if n < 0 then "-" + ShowNat(-n) else ShowNat(n)
  }

  /** `int(str(n)) == n`: reading back a rendered integer gives it back, for
      every integer whose spelling stays within the digit cap. */
  lemma {:induction false} ParseShowRoundTrip(n: int)
    requires |ShowNat(if n < 0 then -n else n)| <= MaxStrDigits
    ensures ParseInt(ShowInt(n)) == Some(n)
  {
    var s := ShowInt(n);
    TrimOfUnpadded(s);
    DigitCountOfDigits(ShowNat(if n < 0 then -n else n));
    if n < 0 {
      assert s[1..] == ShowNat(-n);
    } else {
      var t := ShowNat(n);
      assert IsDigit(t[0]);
    }
  }

  /** A string that neither starts nor ends with whitespace is its own trim. */
  lemma {:induction false} TrimOfUnpadded(s: string)
    requires s == [] || (!IsSpace(s[0]) && !IsSpace(s[|s| - 1]))
    ensures Trim(s) == s
  {
  }

  /** Whitespace in front of a field never changes what `int()` reads. */
  lemma {:induction false} ParseIgnoresLeadingSpace(c: char, s: string)
    requires IsSpace(c)
    ensures ParseInt([c] + s) == ParseInt(s)
  {
    assert ([c] + s)[1..] == s;
    assert TrimStart([c] + s) == TrimStart(s);
    assert Trim([c] + s) == Trim(s);
  }

  predicate IsLower(c: char) {
    'a' <= c <= 'z'
  }

  /** `upper()` of one character, for the ASCII alphabet. */
  function UpperChar(c: char): (u: char)
    ensures !IsLower(u)
    ensures !IsLower(c) ==> u == c
    ensures IsLower(c) ==> 'A' <= u <= 'Z' && u as int - 'A' as int == c as int - 'a' as int
  {
    if IsLower(c) then (c as int - 32) as char else c
  }

  /** `str.upper()` for ASCII text. */
  function Upper(s: string): (r: string)
    ensures |r| == |s|
    ensures forall i :: 0 <= i < |s| ==> r[i] == UpperChar(s[i])
  {
    if s == [] then [] else [UpperChar(s[0])] + Upper(s[1..])
  }

  /** Upper-casing twice is upper-casing once. */
  lemma UpperIdempotent(s: string)
    ensures Upper(Upper(s)) == Upper(s)
  {
  }

  /** Upper-case text has no lower-case letters, and text without them is left alone. */
  lemma UpperFixesExactlyUppercase(s: string)
    ensures Upper(s) == s <==> forall i :: 0 <= i < |s| ==> !IsLower(s[i])
  {
    if Upper(s) == s {
      forall i | 0 <= i < |s| ensures !IsLower(s[i]) {
        assert s[i] == Upper(s)[i];
      }
    }
  }
}
