/**
 * The password rules of the user controller: the complexity check run at
 * registration, the advisory strength score and the reuse check against a
 * user's password history.
 *
 * JavaScript measures `password.length` and matches a regular expression
 * without the `u` flag over UTF-16 code units, not over characters, so the
 * source's checks are modelled over `Utf16(password)`. Character classes are
 * predicates on code points; for a character of the Basic Multilingual Plane
 * its code point is its one code unit.
 */
module PasswordPolicy {
  import opened Crypto

  const MinLength := 8
  const MaxLength := 12

  const LengthMessage := "Password must be between 8 and 12 characters long."
  const ComplexityMessage := "Password must include uppercase, lowercase, number, and special character."

  // ---------------------------------------------------------------------------
  // UTF-16 code units
  // ---------------------------------------------------------------------------

  /** The one or two UTF-16 code units that encode `c`. */
  function CodeUnits(c: char): (units: seq<int>)
    ensures |units| == 1 <==> c as int < 0x1_0000
    ensures |units| == 1 ==> units[0] == c as int
    ensures |units| == 2 ==> IsSurrogate(units[0]) && IsSurrogate(units[1])
  {
    var n := c as int;
    if n < 0x1_0000 then [n]
    else [0xD800 + (n - 0x1_0000) / 0x400, 0xDC00 + (n - 0x1_0000) % 0x400]
  }

  predicate IsSurrogate(u: int)
  {
    0xD800 <= u <= 0xDFFF
  }

  /** The string as JavaScript stores it: `|Utf16(s)|` is `s.length`. */
  function Utf16(s: string): seq<int>
  {
    if s == [] then [] else CodeUnits(s[0]) + Utf16(s[1..])
  }

  /** The code points of `s`, one per character. */
  function CodePoints(s: string): (points: seq<int>)
    ensures |points| == |s|
    ensures forall i :: 0 <= i < |s| ==> points[i] == s[i] as int
  {
    seq(|s|, i requires 0 <= i < |s| => s[i] as int)
  }

  // ---------------------------------------------------------------------------
  // Character classes of the regular expressions
  // ---------------------------------------------------------------------------

  /** `[a-z]` */
  predicate IsLower(u: int) { 'a' as int <= u <= 'z' as int }

  /** `[A-Z]` */
  predicate IsUpper(u: int) { 'A' as int <= u <= 'Z' as int }

  /** `\d` and `[0-9]` (ASCII digits only, since the pattern has no `u` flag) */
  predicate IsDigit(u: int) { '0' as int <= u <= '9' as int }

  /** `[@$!%*?&]` */
  predicate IsSpecial(u: int)
  {
    u == '@' as int || u == '$' as int || u == '!' as int || u == '%' as int
    || u == '*' as int || u == '?' as int || u == '&' as int
  }

  /** `[A-Za-z\d@$!%*?&]` */
  predicate IsAllowed(u: int)
  {
    IsLower(u) || IsUpper(u) || IsDigit(u) || IsSpecial(u)
  }

  /** The code units that `.` does not match. */
  predicate IsLineTerminator(u: int)
  {
    u == 0x0A || u == 0x0D || u == 0x2028 || u == 0x2029
  }

  /** An unanchored search for one unit of a class, as `/[A-Z]/.test(s)`. */
  predicate Contains(units: seq<int>, cls: int -> bool)
  {
    exists i :: 0 <= i < |units| && cls(units[i])
  }

  predicate Every(units: seq<int>, cls: int -> bool)
  {
    forall i :: 0 <= i < |units| ==> cls(units[i])
  }

  predicate NoLineTerminatorBefore(units: seq<int>, i: int)
    requires 0 <= i <= |units|
  {
    forall j :: 0 <= j < i ==> !IsLineTerminator(units[j])
  }

  /** The lookahead `(?=.*C)` at the start of the input. */
  predicate LookaheadFinds(units: seq<int>, cls: int -> bool)
  {
    exists i :: 0 <= i < |units| && cls(units[i]) && NoLineTerminatorBefore(units, i)
  }

  /** `/^(?=.*[a-z])(?=.*[A-Z])(?=.*\d)(?=.*[@$!%*?&])[A-Za-z\d@$!%*?&]{8,12}$/.test(s)` */
  predicate ComplexityPattern(units: seq<int>)
  {
    && LookaheadFinds(units, IsLower)
    && LookaheadFinds(units, IsUpper)
    && LookaheadFinds(units, IsDigit)
    && LookaheadFinds(units, IsSpecial)
    && MinLength <= |units| <= MaxLength
    && Every(units, IsAllowed)
  }

  // ---------------------------------------------------------------------------
  // validatePassword
  // ---------------------------------------------------------------------------

  datatype Validation = Valid | Invalid(message: string)

  /** The length is checked before the pattern, so an out-of-range length always gets the length message. */
  function ValidatePassword(password: string): Validation
  {
    var units := Utf16(password);
    if |units| < MinLength || |units| > MaxLength then Invalid(LengthMessage)
    else if !ComplexityPattern(units) then Invalid(ComplexityMessage)
    else Valid
  }

  /** A string of allowed characters is encoded one code unit per character. */
  lemma {:induction false} Utf16OfAllowed(s: string)
    requires Every(CodePoints(s), IsAllowed)
    ensures Utf16(s) == CodePoints(s)
  {
    if s != [] {
      assert Every(CodePoints(s[1..]), IsAllowed) by {
        forall i | 0 <= i < |s[1..]| ensures IsAllowed(CodePoints(s[1..])[i]) {
          assert CodePoints(s[1..])[i] == CodePoints(s)[i + 1];
        }
      }
      Utf16OfAllowed(s[1..]);
      assert IsAllowed(CodePoints(s)[0]);
    }
  }

  /** Every code unit is allowed exactly when every character is. */
  lemma {:induction false} AllowedUnitsIffAllowedChars(s: string)
    ensures Every(Utf16(s), IsAllowed) <==> Every(CodePoints(s), IsAllowed)
  {
    if s != [] {
      AllowedUnitsIffAllowedChars(s[1..]);
      var head, tail := CodeUnits(s[0]), Utf16(s[1..]);
      assert Utf16(s) == head + tail;
      assert Every(Utf16(s), IsAllowed) <==> Every(head, IsAllowed) && Every(tail, IsAllowed) by {
        if Every(Utf16(s), IsAllowed) {
          forall i | 0 <= i < |tail| ensures IsAllowed(tail[i]) {
            assert tail[i] == Utf16(s)[|head| + i];
          }
          forall i | 0 <= i < |head| ensures IsAllowed(head[i]) {
            assert head[i] == Utf16(s)[i];
          }
        }
        if Every(head, IsAllowed) && Every(tail, IsAllowed) {
          forall i | 0 <= i < |Utf16(s)| ensures IsAllowed(Utf16(s)[i]) {
            if i < |head| {
              assert Utf16(s)[i] == head[i];
            } else {
              assert Utf16(s)[i] == tail[i - |head|];
            }
          }
        }
      }
      assert Every(CodePoints(s), IsAllowed) <==>
             IsAllowed(s[0] as int) && Every(CodePoints(s[1..]), IsAllowed) by {
        if IsAllowed(s[0] as int) && Every(CodePoints(s[1..]), IsAllowed) {
          forall i | 0 <= i < |s| ensures IsAllowed(CodePoints(s)[i]) {
            if i > 0 {
              assert CodePoints(s)[i] == CodePoints(s[1..])[i - 1];
            }
          }
        }
        if Every(CodePoints(s), IsAllowed) {
          forall i | 0 <= i < |s[1..]| ensures IsAllowed(CodePoints(s[1..])[i]) {
            assert CodePoints(s[1..])[i] == CodePoints(s)[i + 1];
          }
        }
      }
      if |head| == 2 {
        assert !IsAllowed(head[0]);
      }
    }
  }

  /** Once every unit is allowed, no unit is a line terminator, so a lookahead is a plain search. */
  lemma LookaheadOnAllowed(units: seq<int>, cls: int -> bool)
    requires Every(units, IsAllowed)
    ensures LookaheadFinds(units, cls) <==> Contains(units, cls)
  {
    if Contains(units, cls) {
      var i :| 0 <= i < |units| && cls(units[i]);
      assert NoLineTerminatorBefore(units, i) by {
        forall j | 0 <= j < i ensures !IsLineTerminator(units[j]) {
          assert IsAllowed(units[j]);
        }
      }
    }
  }

  /**
   * The complexity rule in terms of characters: a password is accepted exactly
   * when it has 8 to 12 characters, a lower-case letter, an upper-case letter,
   * an ASCII digit and one of `@$!%*?&`, and no other character. A length of
   * fewer than 8 or more than 12 code units is refused with the length message
   * whatever the content, and every other refusal carries the complexity message.
   */
  lemma ValidatePasswordIff(password: string)
    ensures ValidatePassword(password).Valid? <==>
              && MinLength <= |password| <= MaxLength
              && Contains(CodePoints(password), IsLower)
              && Contains(CodePoints(password), IsUpper)
              && Contains(CodePoints(password), IsDigit)
              && Contains(CodePoints(password), IsSpecial)
              && Every(CodePoints(password), IsAllowed)
    ensures (|Utf16(password)| < MinLength || |Utf16(password)| > MaxLength) ==>
              ValidatePassword(password) == Invalid(LengthMessage)
    ensures |password| > MaxLength ==> ValidatePassword(password) == Invalid(LengthMessage)
    ensures (ValidatePassword(password).Invalid? && MinLength <= |Utf16(password)| <= MaxLength) ==>
              ValidatePassword(password) == Invalid(ComplexityMessage)
  {
    var units, points := Utf16(password), CodePoints(password);
    Utf16LengthBound(password);
    AllowedUnitsIffAllowedChars(password);
    if Every(points, IsAllowed) {
      Utf16OfAllowed(password);
      LookaheadOnAllowed(units, IsLower);
      LookaheadOnAllowed(units, IsUpper);
      LookaheadOnAllowed(units, IsDigit);
      LookaheadOnAllowed(units, IsSpecial);
    }
  }

  /** `s.length` is never less than the number of characters. */
  lemma {:induction false} Utf16LengthBound(s: string)
    ensures |s| <= |Utf16(s)| <= 2 * |s|
  {
    if s != [] {
      Utf16LengthBound(s[1..]);
    }
  }

  // ---------------------------------------------------------------------------
  // assessPasswordStrength
  // ---------------------------------------------------------------------------

  datatype Strength = Weak | Fair | Good | Strong

  /** The six checks, one point each. */
  function StrengthScore(password: string): (score: nat)
    ensures score <= 6
  {
    var units := Utf16(password);
    (if |units| >= 8 then 1 else 0)
    + (if |units| >= 12 then 1 else 0)
    + (if Contains(units, IsUpper) then 1 else 0)
    + (if Contains(units, IsLower) then 1 else 0)
    + (if Contains(units, IsDigit) then 1 else 0)
    + (if Contains(units, IsSpecial) then 1 else 0)
  }

  /** The label table `{0: "Weak", 1: "Fair", 2: "Good", 3: "Strong"}`. */
  function Label(bucket: nat): Strength
    requires bucket <= 3
  {
    match bucket
    case 0 => Weak
    case 1 => Fair
    case 2 => Good
    case 3 => Strong
  }

  function AssessPasswordStrength(password: string): Strength
  {
    var score := StrengthScore(password);
    Label(if score > 3 then 3 else score)
  }

  /** Scores 0, 1 and 2 have their own labels; every score of 3 or more is "Strong". */
  lemma StrengthBuckets(password: string)
    ensures AssessPasswordStrength(password) == Weak <==> StrengthScore(password) == 0
    ensures AssessPasswordStrength(password) == Fair <==> StrengthScore(password) == 1
    ensures AssessPasswordStrength(password) == Good <==> StrengthScore(password) == 2
    ensures AssessPasswordStrength(password) == Strong <==> StrengthScore(password) >= 3
  {
  }

  /**
   * Every password the complexity check accepts scores 5, or 6 when it is
   * 12 long, and is therefore rated "Strong".
   */
  lemma ValidPasswordIsStrong(password: string)
    requires ValidatePassword(password).Valid?
    ensures StrengthScore(password) == if |password| == MaxLength then 6 else 5
    ensures AssessPasswordStrength(password) == Strong
  {
    var units := Utf16(password);
    assert ComplexityPattern(units);
    ValidatePasswordIff(password);
    Utf16OfAllowed(password);
    LookaheadOnAllowed(units, IsLower);
    LookaheadOnAllowed(units, IsUpper);
    LookaheadOnAllowed(units, IsDigit);
    LookaheadOnAllowed(units, IsSpecial);
  }

  /** The advisory rating is no substitute for the policy: a 13-letter password is "Strong" yet refused. */
  lemma StrongButRefused()
    ensures AssessPasswordStrength("ABCDEFGHIJKLM") == Strong
    ensures ValidatePassword("ABCDEFGHIJKLM") == Invalid(LengthMessage)
  {
    var s := "ABCDEFGHIJKLM";
    assert Every(CodePoints(s), IsAllowed) by {
      forall i | 0 <= i < |s| ensures IsAllowed(CodePoints(s)[i]) {
        assert IsUpper(s[i] as int);
      }
    }
    Utf16OfAllowed(s);
    assert IsUpper(Utf16(s)[0]);
  }

  // ---------------------------------------------------------------------------
  // checkPasswordHistory
  // ---------------------------------------------------------------------------

  /**
   * True when `newPassword` matches none of the digests in `history`; the
   * loop stops at the first match.
   */
  method CheckPasswordHistory(history: seq<Digest>, newPassword: string) returns (unused: bool)
    ensures unused <==> forall i :: 0 <= i < |history| ==> !Compare(newPassword, history[i])
    ensures unused <==> HashPassword(newPassword) !in history
  {
    var i := 0;
    while i < |history|
      invariant 0 <= i <= |history|
      invariant forall j :: 0 <= j < i ==> !Compare(newPassword, history[j])
    {
      if Compare(newPassword, history[i]) {
        return false;
      }
      i := i + 1;
    }
    return true;
  }
}
