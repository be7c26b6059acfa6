/**
 The password strength meter (`PasswordStrengthIndicator`): a points score
 for length and character variety mapped to four levels, and the list of
 registration requirements a password still misses. The view itself
 (progress bar, colours, text) is not modelled.
 */
module PasswordStrength {
  import opened Text
  import opened InputValidator

  /** The four levels, with the progress value the bar shows for each. */
  datatype Strength = Weak | Fair | Good | Strong {
    function Score(): nat {
      match this
      case Weak => 25
      case Fair => 50
      case Good => 75
      case Strong => 100
    }

    function Label(): string {
      match this
      case Weak => "Weak"
      case Fair => "Fair"
      case Good => "Good"
      case Strong => "Strong"
    }
  }

  /** `!it.isLetterOrDigit()`: a character that earns the special-character points. */
  predicate IsSpecial(c: char) { !IsLetterOrDigit(c) }

  /** The length points: 40 from 12 characters, 30 from 8, 20 from 6, else 10. */
  function LengthPoints(n: nat): (points: nat)
    ensures 10 <= points <= 40
    ensures n >= 12 <==> points == 40
    ensures n < 8 <==> points <= 20
  {
    if n >= 12 then 40 else if n >= 8 then 30 else if n >= 6 then 20 else 10
  }

  /** The points `calculatePasswordStrength` adds up: length plus 15 per character class present. */
  function StrengthScore(password: string): (score: nat)
    ensures 10 <= score <= 100
    ensures score >= LengthPoints(|password|)
    ensures score <= LengthPoints(|password|) + 60
  {
    LengthPoints(|password|)
      + (if Any(password, IsUpper) then 15 else 0)
      + (if Any(password, IsLower) then 15 else 0)
      + (if Any(password, IsDigit) then 15 else 0)
      + (if Any(password, IsSpecial) then 15 else 0)
  }

  /** The thresholds: 85 and up is strong, 60 good, 40 fair, anything lower weak. */
  function Classify(score: nat): (s: Strength)
    ensures score >= 85 <==> s == Strong
    ensures 60 <= score < 85 <==> s == Good
    ensures 40 <= score < 60 <==> s == Fair
    ensures score < 40 <==> s == Weak
  {
    if score >= 85 then Strong else if score >= 60 then Good else if score >= 40 then Fair else Weak
  }

  /** `calculatePasswordStrength`: weak for the empty password, else the level of its score. */
  function CalculatePasswordStrength(password: string): (s: Strength)
    ensures password == [] ==> s == Weak
    ensures password != [] ==> (s == Strong <==> StrengthScore(password) >= 85)
    ensures password != [] ==> (s == Good <==> 60 <= StrengthScore(password) < 85)
    ensures password != [] ==> (s == Fair <==> 40 <= StrengthScore(password) < 60)
    ensures password != [] ==> (s == Weak <==> StrengthScore(password) < 40)
  {
    if password == [] then Weak else Classify(StrengthScore(password))
  }

  /** A character present in `s` is present in any extension of `s`. */
  lemma {:induction false} AnyExtends(s: string, c: char, p: char -> bool)
    ensures Any(s, p) ==> Any(s + [c], p)
  {
    if Any(s, p) {
      var i :| 0 <= i < |s| && p(s[i]);
      assert (s + [c])[i] == s[i];
    }
  }

  /** Typing one more character never lowers the score ... */
  lemma {:induction false} TypingNeverLowersScore(password: string, c: char)
    ensures StrengthScore(password + [c]) >= StrengthScore(password)
  {
    AnyExtends(password, c, IsUpper);
    AnyExtends(password, c, IsLower);
    AnyExtends(password, c, IsDigit);
    AnyExtends(password, c, IsSpecial);
  }

  /** ... nor the level the meter shows. */
  lemma {:induction false} TypingNeverLowersStrength(password: string, c: char)
    ensures CalculatePasswordStrength(password + [c]).Score() >= CalculatePasswordStrength(password).Score()
  {
    TypingNeverLowersScore(password, c);
  }

  /**
   A password meeting the registration rules rates at least good, and
   strong exactly when it is 12 characters or longer or holds a special
   character.
   */
  lemma {:induction false} StrongPasswordRatesGoodOrBetter(password: string)
    requires IsStrongPassword(password)
    ensures CalculatePasswordStrength(password) in {Good, Strong}
    ensures CalculatePasswordStrength(password) == Strong <==> |password| >= 12 || Any(password, IsSpecial)
  {
  }

  /** A password under eight characters never rates strong. */
  lemma {:induction false} ShortPasswordIsNeverStrong(password: string)
    requires |password| < 8
    ensures CalculatePasswordStrength(password) != Strong
  {
  }

  /**
   The meter and the registration rules disagree: a long password without
   an upper-case letter rates strong yet fails the rules.
   */
  lemma {:induction false} MeterCanOverrate(password: string)
    requires |password| >= 12 && !Any(password, IsUpper)
    requires Any(password, IsLower) && Any(password, IsDigit) && Any(password, IsSpecial)
    ensures CalculatePasswordStrength(password) == Strong
    ensures !IsStrongPassword(password)
  {
  }

  // ---------------------------------------------------------------------
  // Requirements
  // ---------------------------------------------------------------------

  const LengthRequirement := "At least 8 characters"
  const UpperRequirement := "One uppercase letter"
  const LowerRequirement := "One lowercase letter"
  const DigitRequirement := "One number"

  /** `meetsRequirements`: the registration rule of the input validator. */
  function MeetsRequirements(password: string): (r: bool)
    ensures r <==>
      && |password| >= 8
      && (exists i :: 0 <= i < |password| && IsUpper(password[i]))
      && (exists i :: 0 <= i < |password| && IsLower(password[i]))
      && (exists i :: 0 <= i < |password| && IsDigit(password[i]))
  {
    IsStrongPassword(password)
  }

  /** The position of a requirement message in the fixed order of the list. */
  function RequirementRank(m: string): nat {
    if m == LengthRequirement then 0
    else if m == UpperRequirement then 1
    else if m == LowerRequirement then 2
    else 3
  }

  /** `getUnmetRequirements`: the messages for the rules not met, in a fixed order. */
  function UnmetRequirements(password: string): (r: seq<string>)
    ensures |r| <= 4
    ensures forall i, j :: 0 <= i < j < |r| ==> r[i] != r[j]
    ensures LengthRequirement in r <==> |password| < 8
    ensures UpperRequirement in r <==> !Any(password, IsUpper)
    ensures LowerRequirement in r <==> !Any(password, IsLower)
    ensures DigitRequirement in r <==> !Any(password, IsDigit)
    ensures forall m :: m in r ==> m in [LengthRequirement, UpperRequirement, LowerRequirement, DigitRequirement]
  {
    RequirementMessages(|password| < 8, !Any(password, IsUpper), !Any(password, IsLower), !Any(password, IsDigit))
  }

  /** The messages of the failed rules, in the fixed order. */
  function RequirementMessages(tooShort: bool, noUpper: bool, noLower: bool, noDigit: bool): (r: seq<string>)
    ensures |r| <= 4
    ensures forall i, j :: 0 <= i < j < |r| ==> r[i] != r[j]
    ensures LengthRequirement in r <==> tooShort
    ensures UpperRequirement in r <==> noUpper
    ensures LowerRequirement in r <==> noLower
    ensures DigitRequirement in r <==> noDigit
    ensures forall m :: m in r ==> m in [LengthRequirement, UpperRequirement, LowerRequirement, DigitRequirement]
  {
    (if tooShort then [LengthRequirement] else [])
      + (if noUpper then [UpperRequirement] else [])
      + (if noLower then [LowerRequirement] else [])
      + (if noDigit then [DigitRequirement] else [])
  }

  /** The four messages have the ranks 0 to 3. */
  lemma {:induction false} RequirementRanks()
    ensures RequirementRank(LengthRequirement) == 0 && RequirementRank(UpperRequirement) == 1
    ensures RequirementRank(LowerRequirement) == 2 && RequirementRank(DigitRequirement) == 3
  {
    assert |LengthRequirement| == 21 && |UpperRequirement| == 20 && |LowerRequirement| == 20 && |DigitRequirement| == 10;
    assert UpperRequirement[4] == 'u' && LowerRequirement[4] == 'l';
  }

  /** Appending an element of higher rank than all before it keeps a list in rank order. */
  lemma {:induction false} AppendRanked<T>(rank: T -> nat, t: seq<T>, present: bool, m: T)
    requires forall i, j :: 0 <= i < j < |t| ==> rank(t[i]) < rank(t[j])
    requires forall i :: 0 <= i < |t| ==> rank(t[i]) < rank(m)
    ensures var r := t + (if present then [m] else []);
      && (forall i, j :: 0 <= i < j < |r| ==> rank(r[i]) < rank(r[j]))
      && (forall i :: 0 <= i < |r| ==> rank(r[i]) <= rank(m))
  {
  }

  /** Four optional elements of increasing rank, in that order, are in rank order. */
  lemma {:induction false} FourInRankOrder<T>(rank: T -> nat, a: T, b: T, c: T, d: T, p: bool, q: bool, u: bool, v: bool)
    requires rank(a) < rank(b) < rank(c) < rank(d)
    ensures var r := (if p then [a] else []) + (if q then [b] else []) + (if u then [c] else []) + (if v then [d] else []);
      forall i, j :: 0 <= i < j < |r| ==> rank(r[i]) < rank(r[j])
  {
    var s1 := if p then [a] else [];
    var s2 := s1 + (if q then [b] else []);
    var s3 := s2 + (if u then [c] else []);
    AppendRanked(rank, [], p, a);
    assert [] + s1 == s1;
    AppendRanked(rank, s1, q, b);
    AppendRanked(rank, s2, u, c);
    AppendRanked(rank, s3, v, d);
  }

  /** The messages of any failed rules, listed in the fixed order, are in rank order. */
  lemma {:induction false} MessagesInRankOrder(tooShort: bool, noUpper: bool, noLower: bool, noDigit: bool)
    ensures var r := RequirementMessages(tooShort, noUpper, noLower, noDigit);
      forall i, j :: 0 <= i < j < |r| ==> RequirementRank(r[i]) < RequirementRank(r[j])
  {
    RequirementRanks();
    FourInRankOrder(RequirementRank, LengthRequirement, UpperRequirement, LowerRequirement, DigitRequirement,
                    tooShort, noUpper, noLower, noDigit);
  }

  /** The messages appear in the fixed order length, upper case, lower case, digit. */
  lemma {:induction false} UnmetRequirementsInOrder(password: string)
    ensures var r := UnmetRequirements(password);
      forall i, j :: 0 <= i < j < |r| ==> RequirementRank(r[i]) < RequirementRank(r[j])
  {
    MessagesInRankOrder(|password| < 8, !Any(password, IsUpper), !Any(password, IsLower), !Any(password, IsDigit));
  }

  /** The requirement list is empty exactly when the password meets the requirements. */
  lemma {:induction false} NothingUnmetIffMeetsRequirements(password: string)
    ensures UnmetRequirements(password) == [] <==> MeetsRequirements(password)
  {
    var r := UnmetRequirements(password);
    if r == [] {
      assert LengthRequirement !in r;
    }
  }
}
