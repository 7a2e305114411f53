/**
 * The account-security page's password-strength meter (`checkPasswordStrength`
 * and `getPasswordStrengthColor`). Five criteria each add one point: length at
 * least 8, length at least 12, both an ASCII lower-case and an ASCII upper-case
 * letter, an ASCII digit, and one of `!@#$%^&*`. The raw sum (up to 5) is
 * clamped to 4; the feedback is the message at the clamped score, and the
 * password is acceptable when the raw sum is at least 2.
 */
module PasswordStrength {
  import opened Text

  datatype Strength = Strength(score: int, feedback: string, isValid: bool)

  /** The meter's state before anything is typed. */
  const InitialStrength: Strength := Strength(0, "", false)

  const FeedbackMessages: seq<string> := ["密碼太弱", "密碼較弱", "密碼中等", "密碼較強", "密碼非常強"]

  predicate MixedCase(pw: string) {
    Contains(pw, IsAsciiLower) && Contains(pw, IsAsciiUpper)
  }

  /** The five criteria, in the order the source tests them. */
  function Criteria(pw: string): seq<bool> {
    [|pw| >= 8, |pw| >= 12, MixedCase(pw), Contains(pw, IsAsciiDigit), Contains(pw, IsSymbol)]
  }

  function CountTrue(bs: seq<bool>): (n: nat)
    ensures n <= |bs|
  {
    if |bs| == 0 then 0 else (if bs[0] then 1 else 0) + CountTrue(bs[1..])
  }

  /** The unclamped score: how many criteria hold. */
  function RawScore(pw: string): (n: nat)
    ensures n <= 5
  {
    CountTrue(Criteria(pw))
  }

  function Min(a: int, b: int): int {
    if a <= b then a else b
  }

  /** `checkPasswordStrength(password)`. */
  function CheckPasswordStrength(pw: string): (r: Strength)
    ensures 0 <= r.score <= 4
    ensures r.score == Min(RawScore(pw), 4)
    ensures r.feedback == FeedbackMessages[r.score]
    ensures r.isValid <==> RawScore(pw) >= 2
  {
    var score := RawScore(pw);
    Strength(Min(score, 4), FeedbackMessages[Min(score, 4)], score >= 2)
  }

  /** Clamping never changes validity: valid exactly when the reported score is at least 2. */
  lemma ValidityMatchesClampedScore(pw: string)
    ensures CheckPasswordStrength(pw).isValid <==> CheckPasswordStrength(pw).score >= 2
  {
  }

  /** Two criteria at different positions hold. */
  predicate TwoCriteriaHold(pw: string) {
    exists i, j :: 0 <= i < j < 5 && Criteria(pw)[i] && Criteria(pw)[j]
  }

  lemma {:induction false} CountTrueAtLeastTwo(bs: seq<bool>)
    ensures CountTrue(bs) >= 2 <==> exists i, j :: 0 <= i < j < |bs| && bs[i] && bs[j]
    decreases |bs|
  {
    if |bs| > 0 {
      CountTrueAtLeastTwo(bs[1..]);
      CountTrueAtLeastOne(bs[1..]);
      if CountTrue(bs) >= 2 {
        if bs[0] {
          var k :| 0 <= k < |bs[1..]| && bs[1..][k];
          assert bs[0] && bs[k + 1];
        } else {
          var i, j :| 0 <= i < j < |bs[1..]| && bs[1..][i] && bs[1..][j];
          assert bs[i + 1] && bs[j + 1];
        }
      } else {
        forall i, j | 0 <= i < j < |bs| && bs[i]
          ensures !bs[j]
        {
          if i == 0 {
            assert bs[1..][j - 1] == bs[j];
          } else {
            assert bs[1..][i - 1] == bs[i] && bs[1..][j - 1] == bs[j];
          }
        }
      }
    }
  }

  lemma {:induction false} CountTrueAtLeastOne(bs: seq<bool>)
    ensures CountTrue(bs) >= 1 <==> exists k :: 0 <= k < |bs| && bs[k]
    decreases |bs|
  {
    if |bs| > 0 {
      CountTrueAtLeastOne(bs[1..]);
      if !bs[0] && CountTrue(bs) >= 1 {
        var k :| 0 <= k < |bs[1..]| && bs[1..][k];
        assert bs[k + 1];
      }
      if exists k :: 0 <= k < |bs| && bs[k] {
        var k :| 0 <= k < |bs| && bs[k];
        if k > 0 {
          assert bs[1..][k - 1];
        }
      }
    }
  }

  /** Validity, stated without counting: some two of the five criteria hold. */
  lemma ValidIffTwoCriteria(pw: string)
    ensures CheckPasswordStrength(pw).isValid <==> TwoCriteriaHold(pw)
  {
    CountTrueAtLeastTwo(Criteria(pw));
  }

  /** Length 12 alone passes: twelve lower-case letters make a valid password. */
  lemma LongLowerCaseIsValid()
    ensures CheckPasswordStrength("aaaaaaaaaaaa").isValid
    ensures CheckPasswordStrength("aaaaaaaaaaaa").score == 2
  {
    var pw := "aaaaaaaaaaaa";
    assert !Contains(pw, IsAsciiUpper);
    assert !Contains(pw, IsAsciiDigit);
    assert !Contains(pw, IsSymbol);
    assert Criteria(pw) == [true, true, false, false, false];
  }

  /** Every criterion can hold at once: the raw score reaches 5 and is reported as 4. */
  lemma RawScoreReachesFive()
    ensures RawScore("Abcdefghij1!") == 5
    ensures CheckPasswordStrength("Abcdefghij1!").score == 4
    ensures CheckPasswordStrength("Abcdefghij1!").feedback == "密碼非常強"
  {
    var pw := "Abcdefghij1!";
    assert IsAsciiLower(pw[1]) && IsAsciiUpper(pw[0]);
    assert IsAsciiDigit(pw[10]) && IsSymbol(pw[11]);
    assert Criteria(pw) == [true, true, true, true, true];
  }

  lemma ContainsExtends(pw: string, ext: string, cls: char -> bool)
    requires Contains(pw, cls)
    ensures Contains(pw + ext, cls)
  {
    var i :| 0 <= i < |pw| && cls(pw[i]);
    assert (pw + ext)[i] == pw[i];
  }

  lemma {:induction false} CountTrueMonotone(a: seq<bool>, b: seq<bool>)
    requires |a| == |b|
    requires forall i :: 0 <= i < |a| && a[i] ==> b[i]
    ensures CountTrue(a) <= CountTrue(b)
    decreases |a|
  {
    if |a| > 0 {
      CountTrueMonotone(a[1..], b[1..]);
    }
  }

  /** Typing more characters never lowers the score. */
  lemma AppendNeverWeakens(pw: string, ext: string)
    ensures CheckPasswordStrength(pw + ext).score >= CheckPasswordStrength(pw).score
    ensures CheckPasswordStrength(pw).isValid ==> CheckPasswordStrength(pw + ext).isValid
  {
    if Contains(pw, IsAsciiLower) { ContainsExtends(pw, ext, IsAsciiLower); }
    if Contains(pw, IsAsciiUpper) { ContainsExtends(pw, ext, IsAsciiUpper); }
    if Contains(pw, IsAsciiDigit) { ContainsExtends(pw, ext, IsAsciiDigit); }
    if Contains(pw, IsSymbol) { ContainsExtends(pw, ext, IsSymbol); }
    CountTrueMonotone(Criteria(pw), Criteria(pw + ext));
  }

  /**
   * One left-to-right pass over the password that records which character
   * classes occur, and yields the same strength as the regular-expression
   * tests.
   */
  method ScanStrength(pw: string) returns (r: Strength)
    ensures r == CheckPasswordStrength(pw)
  {
    var lower, upper, digit, symbol := false, false, false, false;
    var i := 0;
    while i < |pw|
      invariant 0 <= i <= |pw|
      invariant lower <==> Contains(pw[..i], IsAsciiLower)
      invariant upper <==> Contains(pw[..i], IsAsciiUpper)
      invariant digit <==> Contains(pw[..i], IsAsciiDigit)
      invariant symbol <==> Contains(pw[..i], IsSymbol)
    {
      var c := pw[i];
      ContainsStep(pw, i, IsAsciiLower);
      ContainsStep(pw, i, IsAsciiUpper);
      ContainsStep(pw, i, IsAsciiDigit);
      ContainsStep(pw, i, IsSymbol);
      lower := lower || IsAsciiLower(c);
      upper := upper || IsAsciiUpper(c);
      digit := digit || IsAsciiDigit(c);
      symbol := symbol || IsSymbol(c);
      i := i + 1;
    }
    assert pw[..|pw|] == pw;
    var score := 0;
    if |pw| >= 8 { score := score + 1; }
    if |pw| >= 12 { score := score + 1; }
    if lower && upper { score := score + 1; }
    if digit { score := score + 1; }
    if symbol { score := score + 1; }
    CountFiveCriteria(pw);
    var clamped := if score <= 4 then score else 4;
    r := Strength(clamped, FeedbackMessages[clamped], score >= 2);
  }

  /** The raw score as a plain sum of the five criteria. */
  lemma CountFiveCriteria(pw: string)
    ensures RawScore(pw) ==
      (if |pw| >= 8 then 1 else 0) + (if |pw| >= 12 then 1 else 0) + (if MixedCase(pw) then 1 else 0)
      + (if Contains(pw, IsAsciiDigit) then 1 else 0) + (if Contains(pw, IsSymbol) then 1 else 0)
  {
    var c := Criteria(pw);
    assert c[1..] == c[1..];
    assert CountTrue(c[4..]) == (if c[4] then 1 else 0) + CountTrue(c[5..]);
    assert c[4..][1..] == c[5..] && c[5..] == [];
    assert c[3..][1..] == c[4..];
    assert c[2..][1..] == c[3..];
    assert c[1..][1..] == c[2..];
    assert CountTrue(c[3..]) == (if c[3] then 1 else 0) + CountTrue(c[4..]);
    assert CountTrue(c[2..]) == (if c[2] then 1 else 0) + CountTrue(c[3..]);
    assert CountTrue(c[1..]) == (if c[1] then 1 else 0) + CountTrue(c[2..]);
  }

  lemma ContainsStep(pw: string, i: nat, cls: char -> bool)
    requires i < |pw|
    ensures Contains(pw[..i + 1], cls) <==> Contains(pw[..i], cls) || cls(pw[i])
  {
    assert pw[..i + 1] == pw[..i] + [pw[i]];
    if Contains(pw[..i + 1], cls) && !cls(pw[i]) {
      var k :| 0 <= k < i + 1 && cls(pw[..i + 1][k]);
      assert k < i;
      assert pw[..i][k] == pw[..i + 1][k];
    }
    if Contains(pw[..i], cls) {
      var k :| 0 <= k < i && cls(pw[..i][k]);
      assert pw[..i + 1][k] == pw[..i][k];
    }
  }

  /** `getPasswordStrengthColor()`: a total map from score to a bar colour. */
  function StrengthColor(score: int): (c: string)
    ensures score == 0 ==> c == "bg-gray-200"
    ensures score == 1 ==> c == "bg-red-500"
    ensures score == 2 ==> c == "bg-orange-500"
    ensures score == 3 ==> c == "bg-yellow-500"
    ensures score != 0 && score != 1 && score != 2 && score != 3 ==> c == "bg-green-500"
  {
    if score == 0 then "bg-gray-200"
    else if score == 1 then "bg-red-500"
    else if score == 2 then "bg-orange-500"
    else if score == 3 then "bg-yellow-500"
    else "bg-green-500"
  }

  /**
   * The bar is grey exactly when no criterion holds, green exactly when at
   * least four hold, and the five scores get five different colours.
   */
  lemma ColorOfPassword(pw: string)
    ensures StrengthColor(CheckPasswordStrength(pw).score) == "bg-gray-200" <==> RawScore(pw) == 0
    ensures StrengthColor(CheckPasswordStrength(pw).score) == "bg-green-500" <==> RawScore(pw) >= 4
    ensures forall a, b :: 0 <= a < b <= 4 ==> StrengthColor(a) != StrengthColor(b)
  {
  }
}
