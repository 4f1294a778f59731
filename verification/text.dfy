/** The pieces of Rust's string library the solvers lean on: `char::is_whitespace`
    and `str::trim`, `str::split` on a single character, `char::is_digit(10)` /
    `to_digit(10)`, and `usize::from_str`. Also the decimal rendering of a
    natural number, used to state round trips. */
module Text {
  import opened Results

  /** Unicode White_Space, the class `char::is_whitespace` (and so `trim`) uses. */
  predicate IsWhitespace(c: char) {
    || c == ' '
    || ('\t' <= c <= '\r')
    || c == '\U{85}' || c == '\U{A0}' || c == '\U{1680}'
    || ('\U{2000}' <= c <= '\U{200A}')
    || c == '\U{2028}' || c == '\U{2029}' || c == '\U{202F}' || c == '\U{205F}' || c == '\U{3000}'
  }

  /** `char::is_digit(10)`: the ASCII decimal digits only. */
  predicate IsDigit(c: char) {
    '0' <= c <= '9'
  }

  /** `char::to_digit(10)` on a digit. */
  function DigitValue(c: char): (d: nat)
    requires IsDigit(c)
    ensures d < 10
  {
    (c - '0') as nat
  }

  function DigitChar(d: nat): (c: char)
    requires d < 10
    ensures IsDigit(c) && DigitValue(c) == d
  {
    ('0' as int + d) as char
  }

  predicate AllDigits(s: string) {
    forall i :: 0 <= i < |s| ==> IsDigit(s[i])
  }

  // ---------------------------------------------------------------------------
  // Trimming

  function TrimStart(s: string): (r: string)
    ensures |r| <= |s| && r == s[|s| - |r|..]
    ensures forall i :: 0 <= i < |s| - |r| ==> IsWhitespace(s[i])
    ensures |r| > 0 ==> !IsWhitespace(r[0])
  {
    if |s| > 0 && IsWhitespace(s[0]) then TrimStart(s[1..]) else s
  }

  function TrimEnd(s: string): (r: string)
    ensures |r| <= |s| && r == s[..|r|]
    ensures forall i :: |r| <= i < |s| ==> IsWhitespace(s[i])
    ensures |r| > 0 ==> !IsWhitespace(r[|r| - 1])
  {
    if |s| > 0 && IsWhitespace(s[|s| - 1]) then TrimEnd(s[..|s| - 1]) else s
  }

  /** Neither end of `s` is white space. */
  predicate Trimmed(s: string) {
    |s| > 0 ==> !IsWhitespace(s[0]) && !IsWhitespace(s[|s| - 1])
  }

  /** Everything of `s` outside `s[a..b]` is white space. */
  predicate WhitespaceOutside(s: string, a: int, b: int)
    requires 0 <= a <= b <= |s|
  {
    && (forall i :: 0 <= i < a ==> IsWhitespace(s[i]))
    && (forall i :: b <= i < |s| ==> IsWhitespace(s[i]))
  }

  /** `str::trim`: drops leading and trailing white space and nothing else. */
  function Trim(s: string): (r: string)
    ensures Trimmed(r)
    ensures exists a, b :: 0 <= a <= b <= |s| && r == s[a..b] && WhitespaceOutside(s, a, b)
    ensures |s| > 0 && !IsWhitespace(s[0]) && !IsWhitespace(s[|s| - 1]) ==> r == s
    ensures |r| <= |s|
    ensures forall c :: c in r ==> c in s
  {
    var t := TrimStart(s);
    var r := TrimEnd(t);
    TrimSpan(s, t, r);
    assert WhitespaceOutside(s, |s| - |t|, |s| - |t| + |r|);
    r
  }

  /** Cutting white space off the end of a suffix of `s` leaves a slice of
      `s` followed only by white space. */
  lemma TrimSpan(s: string, t: string, r: string)
    requires |t| <= |s| && t == s[|s| - |t|..]
    requires |r| <= |t| && r == t[..|r|]
    requires forall i :: |r| <= i < |t| ==> IsWhitespace(t[i])
    ensures r == s[|s| - |t|..|s| - |t| + |r|]
    ensures forall i :: |s| - |t| + |r| <= i < |s| ==> IsWhitespace(s[i])
  {
    forall i | |s| - |t| + |r| <= i < |s| ensures IsWhitespace(s[i]) {
      assert s[i] == t[i - (|s| - |t|)];
    }
  }

  // ---------------------------------------------------------------------------
  // Splitting and joining on one separator character

  /** The pieces joined back together with `sep` between consecutive ones. */
  function Join(parts: seq<string>, sep: char): string {
    if |parts| == 0 then ""
    else if |parts| == 1 then parts[0]
    else parts[0] + [sep] + Join(parts[1..], sep)
  }

  /** `str::split(sep)`: the maximal separator-free pieces, in order; an empty
      string and a trailing separator each give an empty piece. */
  function Split(s: string, sep: char): (parts: seq<string>)
    ensures |parts| > 0
    ensures forall i :: 0 <= i < |parts| ==> sep !in parts[i]
    ensures Join(parts, sep) == s
  {
    if |s| == 0 then [""]
    else
      var rest := Split(s[1..], sep);
      if s[0] == sep then
        assert ([""] + rest)[1..] == rest;
        [""] + rest
      else
        var parts := [[s[0]] + rest[0]] + rest[1..];
        assert parts[1..] == rest[1..];
        assert |rest| > 1 ==> Join(rest, sep) == rest[0] + [sep] + Join(rest[1..], sep);
        assert s == [s[0]] + s[1..];
        parts
  }

  /** Every character of a piece comes from the split string. */
  lemma {:induction false} SplitPieceChars(s: string, sep: char, i: nat, c: char)
    requires i < |Split(s, sep)| && c in Split(s, sep)[i]
    ensures c in s
    decreases |s|
  {
    var rest := Split(s[1..], sep);
    if s[0] == sep {
      assert Split(s, sep)[i] == rest[i - 1];
      SplitPieceChars(s[1..], sep, i - 1, c);
    } else if i == 0 {
      if c != s[0] {
        assert c in rest[0];
        SplitPieceChars(s[1..], sep, 0, c);
      }
    } else {
      assert Split(s, sep)[i] == rest[i];
      SplitPieceChars(s[1..], sep, i, c);
    }
  }

  lemma {:induction false} SplitNoSeparator(p: string, sep: char)
    requires sep !in p
    ensures Split(p, sep) == [p]
    decreases |p|
  {
    if |p| > 0 {
      SplitNoSeparator(p[1..], sep);
      assert [p[0]] + p[1..] == p;
    }
  }

  lemma {:induction false} SplitAfterPiece(p: string, sep: char, t: string)
    requires sep !in p
    ensures Split(p + [sep] + t, sep) == [p] + Split(t, sep)
    decreases |p|
  {
    var s := p + [sep] + t;
    if |p| == 0 {
      assert s[1..] == t;
    } else {
      assert s[1..] == p[1..] + [sep] + t;
      SplitAfterPiece(p[1..], sep, t);
      assert [p[0]] + p[1..] == p;
    }
  }

  /** Splitting undoes joining, provided no piece contains the separator. */
  lemma {:induction false} SplitJoin(parts: seq<string>, sep: char)
    requires |parts| > 0
    requires forall i :: 0 <= i < |parts| ==> sep !in parts[i]
    ensures Split(Join(parts, sep), sep) == parts
    decreases |parts|
  {
    if |parts| == 1 {
      SplitNoSeparator(parts[0], sep);
    } else {
      SplitJoin(parts[1..], sep);
      SplitAfterPiece(parts[0], sep, Join(parts[1..], sep));
      assert [parts[0]] + parts[1..] == parts;
    }
  }

  // ---------------------------------------------------------------------------
  // Decimal numerals

  /** The number a non-empty digit string denotes, most significant digit first. */
  function DecimalValue(ds: string): nat
    requires AllDigits(ds)
  {
    if |ds| == 0 then 0
    else DecimalValue(ds[..|ds| - 1]) * 10 + DigitValue(ds[|ds| - 1])
  }

  /** A well-formed `usize` literal: an optional `+`, then at least one digit. */
  predicate IsNumeral(t: string) {
    if |t| > 0 && t[0] == '+' then |t| > 1 && AllDigits(t[1..])
    else |t| > 0 && AllDigits(t)
  }

  datatype ParseError = Empty | InvalidDigit

  /** `str::parse::<usize>()`: an empty token, a lone sign, a `-` or any
      other non-digit is refused. */
  function ParseNat(t: string): (r: Result<nat, ParseError>)
    ensures r.Ok? <==> IsNumeral(t)
    ensures r == Err(Empty) <==> |t| == 0
    ensures r.Ok? && t[0] == '+' ==> r.value == DecimalValue(t[1..])
    ensures r.Ok? && t[0] != '+' ==> r.value == DecimalValue(t)
  {
    if |t| == 0 then Err(Empty)
    else
      var digits := if t[0] == '+' then t[1..] else t;
      if |digits| == 0 || !AllDigits(digits) then Err(InvalidDigit)
      else Ok(DecimalValue(digits))
  }

  /** The canonical decimal rendering of `n` (what `to_string` produces). */
  function ShowNat(n: nat): (s: string)
    ensures |s| > 0 && AllDigits(s)
    ensures DecimalValue(s) == n
    ensures s[0] == '0' ==> n == 0
  {
    if n < 10 then [DigitChar(n)]
    else
      var s := ShowNat(n / 10) + [DigitChar(n % 10)];
      assert s[..|s| - 1] == ShowNat(n / 10);
      s
  }

  /** Leading zeros do not change the value of a numeral. */
  lemma {:induction false} LeadingZero(ds: string)
    requires AllDigits(ds)
    ensures AllDigits(['0'] + ds) && DecimalValue(['0'] + ds) == DecimalValue(ds)
    decreases |ds|
  {
    var z := ['0'] + ds;
    if |ds| > 0 {
      LeadingZero(ds[..|ds| - 1]);
      assert z[..|z| - 1] == ['0'] + ds[..|ds| - 1];
    }
  }

  /** Signs and leading zeros: `"+007"`, `"007"` and `"7"` all read as 7;
      a lone sign and a minus sign are refused. */
  lemma ParseNatExamples()
    ensures ParseNat("+007") == Ok(7)
    ensures ParseNat("007") == Ok(7)
    ensures ParseNat("7") == Ok(7)
    ensures ParseNat("+") == Err(InvalidDigit)
    ensures ParseNat("-7") == Err(InvalidDigit)
    ensures ParseNat("") == Err(Empty)
  {
    var zeros := "00";
    assert zeros[..1] == "0" && DecimalValue("0") == 0;
    assert DecimalValue(zeros) == 0;
    var padded := "007";
    assert padded[..2] == zeros;
    assert DecimalValue(padded) == 7;
    assert "+007"[1..] == padded;
  }

  /** Every rendered number reads back as itself. */
  lemma ParseShow(n: nat)
    ensures ParseNat(ShowNat(n)) == Ok(n)
  {
  }
}
