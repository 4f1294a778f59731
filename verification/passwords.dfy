/** Password rules (`src/day4.rs`): six characters, all decimal digits,
    never decreasing from left to right, and containing two equal adjacent
    characters; the stricter rule asks for a pair that is not part of a
    longer run.

    Each validator is written as the Rust loop computes it and proved equal
    to a declarative statement of the rule. */
module Passwords {
  import opened Results
  import Text

  /** A candidate password: its characters in order (`Password::parse`). */
  datatype Password = Password(chars: string)

  const Length: nat := 6

  // ---------------------------------------------------------------------------
  // The rules, stated declaratively

  /** Every digit is at least as large as every digit to its left. */
  predicate NonDecreasing(s: string)
    requires Text.AllDigits(s)
  {
    forall i, j :: 0 <= i < j < |s| ==> Text.DigitValue(s[i]) <= Text.DigitValue(s[j])
  }

  /** Some two neighbouring characters are equal. */
  predicate HasAdjacentPair(s: string) {
    exists i :: 0 < i < |s| && s[i - 1] == s[i]
  }

  /** `s[i]` and `s[i + 1]` form a maximal run of exactly two equal characters. */
  predicate ExactPairAt(s: string, i: int) {
    && 0 <= i && i + 1 < |s|
    && s[i] == s[i + 1]
    && (i == 0 || s[i - 1] != s[i])
    && (i + 2 == |s| || s[i + 2] != s[i])
  }

  predicate HasExactPair(s: string) {
    exists i :: 0 <= i < |s| && ExactPairAt(s, i)
  }

  /** The first rule set: `valid`. */
  predicate IsValid(s: string) {
    |s| == Length && Text.AllDigits(s) && NonDecreasing(s) && HasAdjacentPair(s)
  }

  /** The second rule set: `part2_valid`. */
  predicate IsValidPart2(s: string) {
    |s| == Length && Text.AllDigits(s) && NonDecreasing(s) && HasExactPair(s)
  }

  /** A non-digit the increase check reaches before it finds a descent, so
      that `to_digit(10).unwrap()` panics. */
  predicate ReachesNonDigit(s: string) {
    exists k :: 0 <= k < |s| && !Text.IsDigit(s[k]) && Text.AllDigits(s[..k]) && NonDecreasing(s[..k])
  }

  // ---------------------------------------------------------------------------
  // The validators, as the loops compute them

  /** `length_validator`: counts characters (not bytes); a password of the
      wrong length fails both rule sets whatever its characters. */
  function LengthValidator(p: Password): (ok: bool)
    ensures ok <==> |p.chars| == Length
    ensures !ok ==> !IsValid(p.chars) && !IsValidPart2(p.chars)
  {
    |p.chars| == Length
  }

  /** `digit_validator`: `all(|c| c.is_digit(10))`, which stops at the first
      character that is not a digit. */
  method DigitValidator(p: Password) returns (ok: bool)
    ensures ok <==> Text.AllDigits(p.chars)
  {
    var i := 0;
    while i < |p.chars|
      invariant i <= |p.chars|
      invariant Text.AllDigits(p.chars[..i])
    {
      if !Text.IsDigit(p.chars[i]) {
        return false;
      }
      assert p.chars[..i + 1] == p.chars[..i] + [p.chars[i]];
      i := i + 1;
    }
    assert p.chars[..i] == p.chars;
    return true;
  }

  /** `increase_validator`: walks the characters keeping the previous digit
      (initially 0) and fails at the first descent. `None` is the panic of
      `to_digit(10).unwrap()` on a non-digit reached before any descent. */
  method IncreaseValidator(p: Password) returns (r: Option<bool>)
    ensures r.None? <==> ReachesNonDigit(p.chars)
    ensures r == Some(true) <==> Text.AllDigits(p.chars) && NonDecreasing(p.chars)
    ensures Text.AllDigits(p.chars) ==> r == Some(NonDecreasing(p.chars))
  {
    var s := p.chars;
    var prev: nat := 0;
    var i := 0;
    while i < |s|
      invariant i <= |s|
      invariant Text.AllDigits(s[..i]) && NonDecreasing(s[..i])
      invariant prev == if i == 0 then 0 else Text.DigitValue(s[i - 1])
    {
      if !Text.IsDigit(s[i]) {
        assert ReachesNonDigit(s) by {
          assert !Text.IsDigit(s[i]) && Text.AllDigits(s[..i]) && NonDecreasing(s[..i]);
        }
        return None;
      }
      var cur := Text.DigitValue(s[i]);
      if prev > cur {
        DescentBlocks(s, i);
        return Some(false);
      }
      assert s[..i + 1] == s[..i] + [s[i]];
      prev := cur;
      i := i + 1;
    }
    assert s[..i] == s;
    NoNonDigitReached(s);
    return Some(true);
  }

  /** A descent at `i` (digits up to it) makes every longer prefix fail,
      so no later non-digit is reached and the whole string fails too. */
  lemma DescentBlocks(s: string, i: nat)
    requires 0 < i < |s|
    requires Text.AllDigits(s[..i + 1])
    requires Text.DigitValue(s[i - 1]) > Text.DigitValue(s[i])
    ensures !ReachesNonDigit(s)
    ensures !(Text.AllDigits(s) && NonDecreasing(s))
  {
    assert s[..i + 1][i - 1] == s[i - 1] && s[..i + 1][i] == s[i];
  }

  lemma NoNonDigitReached(s: string)
    requires Text.AllDigits(s)
    ensures !ReachesNonDigit(s)
  {
  }

  /** `double_validator`: scans neighbouring pairs from the left. */
  method DoubleValidator(p: Password) returns (ok: bool)
    ensures ok <==> HasAdjacentPair(p.chars)
  {
    var s := p.chars;
    var i := 1;
    while i < |s|
      invariant forall j :: 0 < j < i && j < |s| ==> s[j - 1] != s[j]
    {
      if s[i - 1] == s[i] {
        return true;
      }
      i := i + 1;
    }
    return false;
  }

  /** The length of the run of equal characters that ends at `s[i - 1]`. */
  function Streak(s: string, i: nat): (n: nat)
    requires 0 < i <= |s|
    ensures 1 <= n <= i
  {
    if i == 1 || s[i - 2] != s[i - 1] then 1 else 1 + Streak(s, i - 1)
  }

  /** `part2_double_validator`: counts how many times the current character
      has repeated; a change of character after exactly one repeat, or the
      end of the string after exactly one repeat, is a pair on its own. */
  method Part2DoubleValidator(p: Password) returns (ok: bool)
    ensures ok <==> HasExactPair(p.chars)
  {
    var s := p.chars;
    var repeats := 0;
    var i := 1;
    while i < |s|
      invariant 1 <= i <= if |s| == 0 then 1 else |s|
      invariant repeats == if |s| == 0 then 0 else Streak(s, i) - 1
      invariant forall j :: 0 <= j && j + 2 < i ==> !ExactPairAt(s, j)
    {
      if s[i - 1] == s[i] {
        repeats := repeats + 1;
      } else {
        if repeats == 1 {
          assert ExactPairAt(s, i - 2);
          return true;
        }
        repeats := 0;
      }
      i := i + 1;
    }
    if repeats == 1 {
      assert ExactPairAt(s, |s| - 2);
    }
    return repeats == 1;
  }

  /** `valid`: the four checks in order, each only if the previous passed. */
  method Valid(p: Password) returns (ok: bool)
    ensures ok <==> IsValid(p.chars)
  {
    if !LengthValidator(p) {
      return false;
    }
    ok := DigitValidator(p);
    if !ok {
      return false;
    }
    var increasing := IncreaseValidator(p);
    if increasing != Some(true) {
      return false;
    }
    ok := DoubleValidator(p);
  }

  /** `part2_valid`: as `valid`, with the stricter pair check last. */
  method Part2Valid(p: Password) returns (ok: bool)
    ensures ok <==> IsValidPart2(p.chars)
  {
    if !LengthValidator(p) {
      return false;
    }
    ok := DigitValidator(p);
    if !ok {
      return false;
    }
    var increasing := IncreaseValidator(p);
    if increasing != Some(true) {
      return false;
    }
    ok := Part2DoubleValidator(p);
  }

  // ---------------------------------------------------------------------------
  // Properties

  /** A pair standing alone is in particular a pair of equal neighbours. */
  lemma ExactPairIsAdjacentPair(s: string)
    requires HasExactPair(s)
    ensures HasAdjacentPair(s)
  {
    var i :| 0 <= i < |s| && ExactPairAt(s, i);
    assert s[i + 1 - 1] == s[i + 1];
  }

  /** The second rule set is stricter than the first. */
  lemma Part2ValidIsValid(s: string)
    requires IsValidPart2(s)
    ensures IsValid(s)
  {
    ExactPairIsAdjacentPair(s);
  }

  /** Comparing neighbours is enough: digits that never drop from one to the
      next never drop at all. */
  lemma {:induction false} NonDecreasingFromNeighbours(s: string)
    requires Text.AllDigits(s)
    requires forall k :: 0 < k < |s| ==> Text.DigitValue(s[k - 1]) <= Text.DigitValue(s[k])
    ensures NonDecreasing(s)
    decreases |s|
  {
    if |s| > 1 {
      var t := s[..|s| - 1];
      assert forall k :: 0 <= k < |t| ==> t[k] == s[k];
      NonDecreasingFromNeighbours(t);
      forall i, j | 0 <= i < j < |s|
        ensures Text.DigitValue(s[i]) <= Text.DigitValue(s[j])
      {
        if j < |s| - 1 {
          assert t[i] == s[i] && t[j] == s[j];
        } else if i < j - 1 {
          assert t[i] == s[i] && t[j - 1] == s[j - 1];
        }
      }
    }
  }

  /** The first unit test's cases. */
  lemma ValidExamples()
    ensures !IsValid("11111")
    ensures !IsValid("11111b")
    ensures !IsValid("223450")
    ensures !IsValid("123789")
    ensures IsValid("111111")
  {
    assert !Text.IsDigit("11111b"[5]);
    var descending := "223450";
    assert Text.DigitValue(descending[4]) > Text.DigitValue(descending[5]);
    var distinct := "123789";
    assert forall i :: 0 < i < |distinct| ==> distinct[i - 1] != distinct[i];
    var same := "111111";
    NonDecreasingFromNeighbours(same);
    assert same[0] == same[1];
  }

  /** The second unit test's cases. */
  lemma Part2ValidExamples()
    ensures !IsValidPart2("123444")
    ensures IsValidPart2("112233")
    ensures IsValidPart2("111122")
  {
    var triple := "123444";
    assert forall i :: !ExactPairAt(triple, i);
    var pairs := "112233";
    NonDecreasingFromNeighbours(pairs);
    assert ExactPairAt(pairs, 0);
    var run := "111122";
    NonDecreasingFromNeighbours(run);
    assert ExactPairAt(run, 4);
  }
}
