/**
 The input validator (`InputValidator`): sanitising free text, and the
 format checks for phone numbers, passwords, usernames and booking ids.
 Every regular expression of the source is written out as a predicate on
 characters.
 */
module InputValidator {
  import opened Wrappers
  import opened Text
  import opened Seqs
  import BookingStore

  /** `take(255)`: the longest text `sanitizeString` returns. */
  const MaxSanitizedLength := 255

  /** The characters `sanitizeString` deletes, the class [<>"'`]. */
  predicate IsMarkupChar(c: char) {
    c == '<' || c == '>' || c == '"' || c == '\'' || c == '`'
  }

  predicate NotMarkup(c: char) { !IsMarkupChar(c) }

  predicate NotRegexSpace(c: char) { !IsRegexSpace(c) }

  /** The characters sanitising never touches: neither whitespace nor markup. */
  predicate IsContent(c: char) { !IsKotlinWhitespace(c) && !IsMarkupChar(c) }

  // ---------------------------------------------------------------------
  // sanitizeString
  // ---------------------------------------------------------------------

  /** `replace(Regex("\\s+"), " ")`: every maximal run of `\s` becomes one space. */
  function CollapseSpaces(s: string): (r: string)
    ensures |r| <= |s|
    ensures forall i :: 0 <= i < |r| && IsRegexSpace(r[i]) ==> r[i] == ' '
    ensures forall i :: 0 <= i < |r| - 1 ==> !(IsRegexSpace(r[i]) && IsRegexSpace(r[i + 1]))
    ensures (|r| > 0 && IsRegexSpace(r[0])) <==> (|s| > 0 && IsRegexSpace(s[0]))
    decreases |s|
  {
    if |s| == 0 then []
    else if IsRegexSpace(s[0]) then
      " " + CollapseSpaces(TrimStart(s[1..], IsRegexSpace))
    else
      [s[0]] + CollapseSpaces(s[1..])
  }

  /** A character property that the input and the space both have, the output has too. */
  lemma {:induction false} CollapseKeeps(s: string, p: char -> bool)
    requires p(' ') && forall i :: 0 <= i < |s| ==> p(s[i])
    ensures forall i :: 0 <= i < |CollapseSpaces(s)| ==> p(CollapseSpaces(s)[i])
    decreases |s|
  {
    if |s| > 0 {
      if IsRegexSpace(s[0]) {
        var rest := TrimStart(s[1..], IsRegexSpace);
        assert forall i :: 0 <= i < |rest| ==> rest[i] == s[|s| - |rest| + i];
        CollapseKeeps(rest, p);
      } else {
        CollapseKeeps(s[1..], p);
      }
    }
  }

  /** A leading whitespace run filters to nothing. */
  lemma {:induction false} SpaceRunFiltersAway(s: string)
    requires |s| > 0 && IsRegexSpace(s[0])
    ensures Filter(s, NotRegexSpace) == Filter(TrimStart(s[1..], IsRegexSpace), NotRegexSpace)
  {
    var tail := s[1..];
    var rest := TrimStart(tail, IsRegexSpace);
    var k := |s| - |rest|;
    assert s[k..] == rest by {
      assert rest == tail[k - 1..];
      assert tail[k - 1..] == s[k..];
    }
    assert Filter(s, NotRegexSpace) == Filter(s[k..], NotRegexSpace) by {
      forall i | 0 <= i < k
        ensures !NotRegexSpace(s[i])
      {
        if i > 0 {
          assert s[i] == tail[i - 1];
        }
      }
      FilterSkipsPrefix(s, k, NotRegexSpace);
    }
  }

  /** The single space replacing a run filters to nothing. */
  lemma {:induction false} CollapsedRunFiltersAway(s: string)
    requires |s| > 0 && IsRegexSpace(s[0])
    ensures Filter(CollapseSpaces(s), NotRegexSpace) == Filter(CollapseSpaces(TrimStart(s[1..], IsRegexSpace)), NotRegexSpace)
  {
    var c := CollapseSpaces(TrimStart(s[1..], IsRegexSpace));
    assert Filter(" " + c + [], NotRegexSpace) == Filter(c, NotRegexSpace) by {
      assert !NotRegexSpace(" "[0]);
      FilterIgnoresEnds(" ", c, [], NotRegexSpace);
    }
    assert CollapseSpaces(s) == " " + c + [] by {
      assert CollapseSpaces(s) == " " + c;
    }
  }

  /** A kept character in front survives filtering. */
  lemma {:induction false} KeptHeadStep(c: char, s: string)
    requires !IsRegexSpace(c)
    ensures Filter([c] + s, NotRegexSpace) == [c] + Filter(s, NotRegexSpace)
  {
    assert Filter([c], NotRegexSpace) == [c] by {
      FilterAll([c], NotRegexSpace);
    }
    FilterAppend([c], s, NotRegexSpace);
  }

  /** Collapsing whitespace keeps every other character, in order. */
  lemma {:induction false} CollapseKeepsContent(s: string)
    ensures Filter(CollapseSpaces(s), NotRegexSpace) == Filter(s, NotRegexSpace)
    decreases |s|
  {
    if |s| > 0 {
      if IsRegexSpace(s[0]) {
        SpaceRunFiltersAway(s);
        CollapsedRunFiltersAway(s);
        CollapseKeepsContent(TrimStart(s[1..], IsRegexSpace));
      } else {
        assert s == [s[0]] + s[1..];
        KeptHeadStep(s[0], s[1..]);
        KeptHeadStep(s[0], CollapseSpaces(s[1..]));
        CollapseKeepsContent(s[1..]);
      }
    }
  }

  /** Text without whitespace has nothing to collapse. */
  lemma {:induction false} CollapseWithoutSpaces(s: string)
    requires forall i :: 0 <= i < |s| ==> !IsRegexSpace(s[i])
    ensures CollapseSpaces(s) == s
    decreases |s|
  {
    if |s| > 0 {
      CollapseWithoutSpaces(s[1..]);
    }
  }

  /**
   `sanitizeString`: Kotlin-trim, delete the markup characters, turn every
   whitespace run into one space, keep at most 255 characters.
   */
  function SanitizeString(input: string): (r: string)
    ensures |r| <= MaxSanitizedLength
    ensures forall i :: 0 <= i < |r| ==> !IsMarkupChar(r[i])
    ensures forall i :: 0 <= i < |r| && IsRegexSpace(r[i]) ==> r[i] == ' '
    ensures forall i :: 0 <= i < |r| - 1 ==> !(r[i] == ' ' && r[i + 1] == ' ')
  {
    var kept := Filter(KotlinTrim(input), NotMarkup);
    var collapsed := CollapseSpaces(kept);
    CollapseKeeps(kept, NotMarkup);
    var n := if |collapsed| <= MaxSanitizedLength then |collapsed| else MaxSanitizedLength;
    CollapsedPrefixShape(collapsed, n);
    collapsed[..n]
  }

  /** An input that fits the length bound is not cut short. */
  lemma {:induction false} SanitizeFits(input: string)
    requires |input| <= MaxSanitizedLength
    ensures SanitizeString(input) == CollapseSpaces(Filter(KotlinTrim(input), NotMarkup))
  {
    var t := KotlinTrim(input);
    var kept := Filter(t, NotMarkup);
    var collapsed := CollapseSpaces(kept);
    assert |collapsed| <= MaxSanitizedLength by {
      SubseqElements(kept, t);
    }
    assert collapsed[..|collapsed|] == collapsed;
  }

  /** Cutting a collapsed, markup-free text short keeps it collapsed and markup-free. */
  lemma {:induction false} CollapsedPrefixShape(c: string, n: nat)
    requires n <= |c|
    requires forall i :: 0 <= i < |c| ==> NotMarkup(c[i])
    requires forall i :: 0 <= i < |c| && IsRegexSpace(c[i]) ==> c[i] == ' '
    requires forall i :: 0 <= i < |c| - 1 ==> !(IsRegexSpace(c[i]) && IsRegexSpace(c[i + 1]))
    ensures forall i :: 0 <= i < n ==> !IsMarkupChar(c[..n][i])
    ensures forall i :: 0 <= i < n && IsRegexSpace(c[..n][i]) ==> c[..n][i] == ' '
    ensures forall i :: 0 <= i < n - 1 ==> !(c[..n][i] == ' ' && c[..n][i + 1] == ' ')
  {
    forall i | 0 <= i < n
      ensures c[..n][i] == c[i] && !IsMarkupChar(c[i])
    {
      assert NotMarkup(c[i]);
    }
  }

  /** Trimming Kotlin whitespace never removes a content character. */
  lemma {:induction false} KotlinTrimKeepsContent(s: string)
    ensures Filter(KotlinTrim(s), IsContent) == Filter(s, IsContent)
  {
    var t := KotlinTrim(s);
    var i := TrimOffset(s, IsKotlinWhitespace);
    var pre, post := s[..i], s[i + |t|..];
    assert s == pre + t + post by {
      TrimIsInfix(s, IsKotlinWhitespace);
    }
    forall k | 0 <= k < |pre|
      ensures !IsContent(pre[k])
    {
      assert pre[k] == s[k];
    }
    TrimDropsTail(s, IsKotlinWhitespace);
    forall k | 0 <= k < |post|
      ensures !IsContent(post[k])
    {
      assert post[k] == s[i + |t| + k];
    }
    FilterIgnoresEnds(pre, t, post, IsContent);
  }

  /**
   Sanitising keeps the content characters (everything but whitespace and
   markup) in order: it yields a prefix of the input's content, all of it
   when the input fits in 255 characters.
   */
  lemma {:induction false} SanitizeKeepsContent(input: string)
    ensures var content := Filter(input, IsContent);
      var kept := Filter(SanitizeString(input), IsContent);
      && |kept| <= |content|
      && kept == content[..|kept|]
      && (|input| <= MaxSanitizedLength ==> kept == content)
  {
    var t := KotlinTrim(input);
    var u := Filter(t, NotMarkup);
    var v := CollapseSpaces(u);
    assert Filter(v, IsContent) == Filter(input, IsContent) by {
      KotlinTrimKeepsContent(input);
      FilterFilter(t, NotMarkup, IsContent);
      CollapseKeepsContent(u);
      FilterFilter(v, NotRegexSpace, IsContent);
      FilterFilter(u, NotRegexSpace, IsContent);
    }
    assert |v| <= |input| by {
      SubseqElements(u, t);
    }
    assert SanitizeString(input) == if |v| <= MaxSanitizedLength then v else v[..MaxSanitizedLength] by {
      assert v[..|v|] == v;
    }
    if |v| > MaxSanitizedLength {
      var head := v[..MaxSanitizedLength];
      assert Filter(v, IsContent) == Filter(head, IsContent) + Filter(v[MaxSanitizedLength..], IsContent) by {
        assert v == head + v[MaxSanitizedLength..];
        FilterAppend(head, v[MaxSanitizedLength..], IsContent);
      }
    }
  }

  /** Deleting the markup character in front leaves the rest. */
  lemma {:induction false} MarkupHeadDeleted(m: char, rest: string)
    requires IsMarkupChar(m) && forall i :: 0 <= i < |rest| ==> !IsMarkupChar(rest[i])
    ensures Filter([m] + rest, NotMarkup) == rest
  {
    FilterAppend([m], rest, NotMarkup);
    FilterNone([m], NotMarkup);
    FilterAll(rest, NotMarkup);
  }

  /**
   Trimming happens before markup is deleted, so the output can start with a
   space ...
   */
  lemma {:induction false} MarkupCanExposeSpace(m: char, c: char)
    requires IsMarkupChar(m) && IsContent(c)
    ensures SanitizeString([m, ' ', c]) == [' ', c]
  {
    var tail := [' ', c];
    var input := [m] + tail;
    assert input == [m, ' ', c];
    assert KotlinTrim(input) == input by {
      TrimKeepsTrimmed(input, IsKotlinWhitespace);
    }
    assert Filter(input, NotMarkup) == tail by {
      MarkupHeadDeleted(m, tail);
    }
    SpaceWordIsCollapsed(c);
    SanitizeFits(input);
  }

  /** A single space before a word character is already collapsed. */
  lemma {:induction false} SpaceWordIsCollapsed(c: char)
    requires !IsRegexSpace(c)
    ensures CollapseSpaces([' ', c]) == [' ', c]
  {
    var t := [' ', c];
    assert t[1..] == [c];
    assert TrimStart([c], IsRegexSpace) == [c];
    assert CollapseSpaces([c]) == [c] by {
      CollapseWithoutSpaces([c]);
    }
    assert CollapseSpaces(t) == " " + CollapseSpaces(TrimStart(t[1..], IsRegexSpace));
  }

  /** ... that a second pass trims away: sanitising is not idempotent. */
  lemma {:induction false} SecondPassTrimsAgain(c: char)
    requires IsContent(c)
    ensures SanitizeString([' ', c]) == [c]
  {
    SanitizeFits([' ', c]);
    LeadingSpaceIsTrimmed(c);
    assert Filter([c], NotMarkup) == [c] by {
      FilterAll([c], NotMarkup);
    }
    CollapseWithoutSpaces([c]);
  }

  /** Kotlin's trim removes a single leading space before a word character. */
  lemma {:induction false} LeadingSpaceIsTrimmed(c: char)
    requires !IsKotlinWhitespace(c)
    ensures KotlinTrim([' ', c]) == [c]
  {
    assert [' ', c][1..] == [c];
    assert TrimStart([' ', c], IsKotlinWhitespace) == [c];
    assert TrimEnd([c], IsKotlinWhitespace) == [c];
  }

  // ---------------------------------------------------------------------
  // Format checks
  // ---------------------------------------------------------------------

  /**
   `isValidPhoneNumber`: after deleting every non-digit the text is exactly
   ten digits long.
   */
  function IsValidPhoneNumber(phone: string): (r: bool)
    ensures r <==> Count(phone, IsDigit) == 10
    ensures r ==> |phone| >= 10
  {
    CountIsFilterLength(phone, IsDigit);
    |Filter(phone, IsDigit)| == 10
  }

  /** A plain ten-digit number passes this check and the booking store's. */
  lemma {:induction false} TenDigitsPassBothChecks(phone: string)
    requires |phone| == 10 && forall i :: 0 <= i < |phone| ==> IsDigit(phone[i])
    ensures IsValidPhoneNumber(phone)
    ensures BookingStore.IsValidPhoneNumber(phone)
  {
    FilterAll(phone, IsDigit);
    TrimKeepsTrimmed(phone, IsJavaTrimmed);
  }

  /** The booking store accepts more than ten digits; this check refuses them. */
  lemma {:induction false} LongNumbersSplitTheChecks(phone: string)
    requires |phone| >= 11 && forall i :: 0 <= i < |phone| ==> IsDigit(phone[i])
    ensures BookingStore.IsValidPhoneNumber(phone)
    ensures !IsValidPhoneNumber(phone)
  {
    TrimKeepsTrimmed(phone, IsJavaTrimmed);
    FilterAll(phone, IsDigit);
  }

  /** The booking store accepts ten or more dashes and parentheses, which hold no digit at all. */
  lemma {:induction false} PunctuationSplitsTheChecks(phone: string)
    requires |phone| >= 10 && forall i :: 0 <= i < |phone| ==> phone[i] in "-()"
    ensures BookingStore.IsValidPhoneNumber(phone)
    ensures !IsValidPhoneNumber(phone)
  {
    TrimKeepsTrimmed(phone, IsJavaTrimmed);
    FilterNone(phone, IsDigit);
  }

  /** This check accepts ten digits after a word; the booking store refuses them. */
  lemma {:induction false} LetterPrefixSplitsTheChecks(prefix: string, digits: string)
    requires |prefix| > 0 && IsLetter(prefix[0]) && forall i :: 0 <= i < |prefix| ==> !IsDigit(prefix[i])
    requires |digits| == 10 && forall i :: 0 <= i < |digits| ==> IsDigit(digits[i])
    ensures IsValidPhoneNumber(prefix + digits)
    ensures !BookingStore.IsValidPhoneNumber(prefix + digits)
  {
    var phone := prefix + digits;
    assert Filter(phone, IsDigit) == digits by {
      FilterAppend(prefix, digits, IsDigit);
      FilterNone(prefix, IsDigit);
      FilterAll(digits, IsDigit);
    }
    assert JavaTrim(phone) == phone by {
      TrimKeepsTrimmed(phone, IsJavaTrimmed);
    }
    assert !BookingStore.IsPhonePatternChar(phone[0]) && phone[0] != '+';
  }

  /** `password.any { … }`. */
  predicate Any(s: string, p: char -> bool) {
    exists i :: 0 <= i < |s| && p(s[i])
  }

  /**
   `isStrongPassword`: at least eight characters, with an upper-case letter,
   a lower-case letter and a digit.
   */
  predicate IsStrongPassword(password: string): (r: bool)
    ensures r <==>
      && |password| >= 8
      && (exists i :: 0 <= i < |password| && 'A' <= password[i] <= 'Z')
      && (exists i :: 0 <= i < |password| && 'a' <= password[i] <= 'z')
      && (exists i :: 0 <= i < |password| && '0' <= password[i] <= '9')
  {
    |password| >= 8 && Any(password, IsUpper) && Any(password, IsLower) && Any(password, IsDigit)
  }

  /** The characters of `[a-zA-Z0-9_]`. */
  predicate IsUsernameChar(c: char) { IsLetterOrDigit(c) || c == '_' }

  /** `isValidUsername`: 3 to 20 characters of `[a-zA-Z0-9_]`. */
  predicate IsValidUsername(username: string): (r: bool)
    ensures r <==> 3 <= |username| <= 20 && forall i :: 0 <= i < |username| ==>
      'a' <= username[i] <= 'z' || 'A' <= username[i] <= 'Z' || '0' <= username[i] <= '9' || username[i] == '_'
  {
    3 <= |username| <= 20 && forall i :: 0 <= i < |username| ==> IsUsernameChar(username[i])
  }

  /** Sanitising leaves a valid username exactly as it is. */
  lemma {:induction false} ValidUsernameSurvivesSanitizing(username: string)
    requires IsValidUsername(username)
    ensures SanitizeString(username) == username
  {
    assert KotlinTrim(username) == username by {
      UsernameCharIsPlain(username[0]);
      UsernameCharIsPlain(username[|username| - 1]);
      TrimKeepsTrimmed(username, IsKotlinWhitespace);
    }
    assert Filter(username, NotMarkup) == username by {
      forall i | 0 <= i < |username|
        ensures NotMarkup(username[i])
      {
        UsernameCharIsPlain(username[i]);
      }
      FilterAll(username, NotMarkup);
    }
    assert CollapseSpaces(username) == username by {
      forall i | 0 <= i < |username|
        ensures !IsRegexSpace(username[i])
      {
        UsernameCharIsPlain(username[i]);
      }
      CollapseWithoutSpaces(username);
    }
    SanitizeFits(username);
  }

  /** A username character is neither whitespace nor markup. */
  lemma {:induction false} UsernameCharIsPlain(c: char)
    requires IsUsernameChar(c)
    ensures !IsKotlinWhitespace(c) && NotMarkup(c) && !IsRegexSpace(c)
  {
  }

  // ---------------------------------------------------------------------
  // sanitizeBookingId
  // ---------------------------------------------------------------------

  /** The pattern `^BK[0-9]{10,}$`. */
  predicate IsBookingIdFormat(s: string) {
    |s| >= 12 && s[0] == 'B' && s[1] == 'K' && forall i :: 2 <= i < |s| ==> IsDigit(s[i])
  }

  /**
   `sanitizeBookingId`: the trimmed, upper-cased id when it matches
   `BK` followed by at least ten digits, otherwise null.
   */
  function SanitizeBookingId(bookingId: string): (r: Option<string>)
    ensures r.Some? ==> IsBookingIdFormat(r.value)
    ensures r.Some? ==> |r.value| <= |bookingId| && r.value == ToUpper(KotlinTrim(bookingId))
    ensures r.None? <==> !IsBookingIdFormat(ToUpper(KotlinTrim(bookingId)))
  {
    var cleaned := ToUpper(KotlinTrim(bookingId));
    if IsBookingIdFormat(cleaned) then Some(cleaned) else None
  }

  /** A well-formed id is accepted unchanged. */
  lemma {:induction false} WellFormedIdIsKept(id: string)
    requires IsBookingIdFormat(id)
    ensures SanitizeBookingId(id) == Some(id)
  {
    TrimKeepsTrimmed(id, IsKotlinWhitespace);
    assert ToUpper(id) == id;
  }

  /** Sanitising an id twice gives what sanitising once gave. */
  lemma {:induction false} SanitizeBookingIdIdempotent(bookingId: string)
    ensures var r := SanitizeBookingId(bookingId);
      r.Some? ==> SanitizeBookingId(r.value) == r
  {
    var r := SanitizeBookingId(bookingId);
    if r.Some? {
      WellFormedIdIsKept(r.value);
    }
  }

  /**
   The ids the booking store generates ("BK", a millisecond timestamp and a
   random number) pass once the timestamp has ten digits or more, as every
   millisecond clock reading after 12 January 1970 does.
   */
  lemma {:induction false} GeneratedIdsAreWellFormed(timestamp: int, random: nat)
    requires timestamp >= Pow10(9)
    ensures SanitizeBookingId(BookingStore.CandidateId(timestamp, random)) == Some(BookingStore.CandidateId(timestamp, random))
  {
    var id := BookingStore.CandidateId(timestamp, random);
    var ts, rnd := IntToString(timestamp), IntToString(random);
    NatToStringLength(timestamp, 9);
    assert id == "BK" + ts + rnd;
    assert forall i :: 2 <= i < 2 + |ts| ==> id[i] == ts[i - 2];
    assert forall i :: 2 + |ts| <= i < |id| ==> id[i] == rnd[i - 2 - |ts|];
    WellFormedIdIsKept(id);
  }

  /** An id with too few digits is refused. */
  lemma {:induction false} ShortIdIsRefused()
    ensures SanitizeBookingId(" bk123 ") == None
  {
    var cleaned := ToUpper(KotlinTrim(" bk123 "));
    assert |KotlinTrim(" bk123 ")| <= 7;
    assert |cleaned| < 12;
  }
}
