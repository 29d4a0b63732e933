/** The form validators of the front end (frontend/src/utils/validators.ts). */
module Validators {

  import opened Base
  import QuizGateway

  // ---------------------------------------------------------------- e-mail

  /** The characters JavaScript's regular-expression class `\s` matches:
      the ECMAScript WhiteSpace and LineTerminator code points. */
  predicate IsSpace(c: char)
  {
    || c == ' ' || c == '\t' || c == '\n' || c == '\r'
    || c == '\U{B}' || c == '\U{C}' || c == '\U{A0}' || c == '\U{1680}'
    || ('\U{2000}' <= c <= '\U{200A}')
    || c == '\U{2028}' || c == '\U{2029}' || c == '\U{202F}' || c == '\U{205F}'
    || c == '\U{3000}' || c == '\U{FEFF}'
  }

  /** A character of the class `[^\s@]`. */
  predicate Plain(c: char)
  {
    !IsSpace(c) && c != '@'
  }

  /** The string is a non-empty run of `[^\s@]`, i.e. matches `[^\s@]+`. */
  predicate PlainRun(s: string)
  {
    |s| > 0 && forall k | 0 <= k < |s| :: Plain(s[k])
  }

  /** What the anchored pattern `^[^\s@]+@[^\s@]+\.[^\s@]+$` accepts: the string
      splits at an '@' (index a) and a later '.' (index d) into three runs of `[^\s@]+`. */
  ghost predicate MatchesEmailPattern(s: string)
  {
    exists a, d | 0 <= a < d < |s| ::
      && s[a] == '@' && s[d] == '.'
      && PlainRun(s[..a]) && PlainRun(s[a + 1..d]) && PlainRun(s[d + 1..])
  }

  predicate NoWhitespace(s: string)
  {
    forall k | 0 <= k < |s| :: !IsSpace(s[k])
  }

  predicate NoAt(s: string)
  {
    forall k | 0 <= k < |s| :: s[k] != '@'
  }

  /** The domain holds a '.' that is neither its first nor its last character. */
  predicate DottedDomain(domain: string)
  {
    exists k | 0 < k < |domain| - 1 :: domain[k] == '.'
  }

  /** validateEmail (validators.ts:1-4), stated as the four conditions it amounts to:
      no whitespace, exactly one '@' with a non-empty local part before it, and a
      domain after it with a '.' that is neither its first nor its last character. */
  predicate ValidateEmail(email: string)
  {
    && NoWhitespace(email)
    && exists a | 0 < a < |email| ::
         email[a] == '@' && NoAt(email[..a]) && NoAt(email[a + 1..]) && DottedDomain(email[a + 1..])
  }

  /** The four conditions accept exactly the language of the source's regular expression. */
  lemma ValidateEmailMatchesPattern(email: string)
    ensures ValidateEmail(email) <==> MatchesEmailPattern(email)
  {
    if ValidateEmail(email) {
      ConditionsGivePattern(email);
    }
    if MatchesEmailPattern(email) {
      PatternGivesConditions(email);
    }
  }

  lemma ConditionsGivePattern(email: string)
    requires ValidateEmail(email)
    ensures MatchesEmailPattern(email)
  {
    var a :| 0 < a < |email| && email[a] == '@' && NoAt(email[..a]) && NoAt(email[a + 1..])
             && DottedDomain(email[a + 1..]);
    var k :| 0 < k < |email[a + 1..]| - 1 && email[a + 1..][k] == '.';
    SplitGivesPattern(email, a, a + 1 + k);
  }

  /** An '@' at a and a '.' at d, with non-empty parts around them, split the string
      into the three runs of the pattern. */
  lemma SplitGivesPattern(email: string, a: int, d: int)
    requires 0 < a && a + 1 < d < |email| - 1 && email[a] == '@' && email[d] == '.'
    requires NoWhitespace(email) && NoAt(email[..a]) && NoAt(email[a + 1..])
    ensures MatchesEmailPattern(email)
  {
    var domain := email[a + 1..];
    var k := d - a - 1;
    assert email[a + 1..d] == domain[..k];
    assert email[d + 1..] == domain[k + 1..];
    NoAtSlice(domain, 0, k);
    NoAtSlice(domain, k + 1, |domain|);
    assert email[..a] == email[0..a];
    PlainSlice(email, 0, a, email[..a]);
    PlainSlice(email, a + 1, d, domain[..k]);
    PlainSlice(email, d + 1, |email|, domain[k + 1..]);
    PatternWitness(email, a, d);
  }

  lemma NoAtSlice(s: string, i: int, j: int)
    requires 0 <= i <= j <= |s| && NoAt(s)
    ensures NoAt(s[i..j])
  {
    forall k | 0 <= k < j - i ensures s[i..j][k] != '@' {
      assert s[i..j][k] == s[i + k];
    }
  }

  lemma PatternWitness(s: string, a: int, d: int)
    requires 0 <= a < d < |s| && s[a] == '@' && s[d] == '.'
    requires PlainRun(s[..a]) && PlainRun(s[a + 1..d]) && PlainRun(s[d + 1..])
    ensures MatchesEmailPattern(s)
  {
  }

  /** A non-empty slice of a string without whitespace is a run of `[^\s@]` when the
      same text, read elsewhere, holds no '@'. */
  lemma PlainSlice(s: string, i: int, j: int, t: string)
    requires 0 <= i < j <= |s| && NoWhitespace(s) && t == s[i..j] && NoAt(t)
    ensures PlainRun(s[i..j])
  {
    forall k | 0 <= k < j - i ensures Plain(t[k]) {
      assert t[k] == s[i + k];
    }
  }

  lemma PatternGivesConditions(email: string)
    requires MatchesEmailPattern(email)
    ensures ValidateEmail(email)
  {
    var a, d :| 0 <= a < d < |email| && email[a] == '@' && email[d] == '.'
                && PlainRun(email[..a]) && PlainRun(email[a + 1..d]) && PlainRun(email[d + 1..]);
    forall k | 0 <= k < |email| ensures !IsSpace(email[k]) {
      if k < a {
        assert email[k] == email[..a][k];
      } else if a < k < d {
        assert email[k] == email[a + 1..d][k - a - 1];
      } else if d < k {
        assert email[k] == email[d + 1..][k - d - 1];
      }
    }
    var domain := email[a + 1..];
    forall k | 0 <= k < |domain| ensures domain[k] != '@' {
      if a + 1 + k < d {
        assert domain[k] == email[a + 1..d][k];
      } else if a + 1 + k > d {
        assert domain[k] == email[d + 1..][k - (d - a)];
      }
    }
    assert NoAt(email[..a]);
    assert domain[d - a - 1] == '.';
    assert DottedDomain(domain);
  }

  // ---------------------------------------------------------------- length

  /** Every character lies in the Basic Multilingual Plane, so it is one UTF-16 code unit. */
  predicate InBasicPlane(s: string)
  {
    forall k | 0 <= k < |s| :: s[k] < '\U{10000}'
  }

  /** A JavaScript string's `.length`: its UTF-16 code units, two for each character
      outside the Basic Multilingual Plane. */
  function Utf16Length(s: string): (n: nat)
    ensures |s| <= n <= 2 * |s|
    ensures n == |s| <==> InBasicPlane(s)
  {
    if s == [] then 0
    else
      assert forall k | 1 <= k < |s| :: s[k] == s[1..][k - 1];
      (if s[0] < '\U{10000}' then 1 else 2) + Utf16Length(s[1..])
  }

  // -------------------------------------------------------------- password

  const LengthMessage := "Password must be at least 8 characters long"
  const UpperMessage := "Password must contain at least one uppercase letter"
  const LowerMessage := "Password must contain at least one lowercase letter"
  const DigitMessage := "Password must contain at least one number"
  const SpecialMessage := "Password must contain at least one special character (!@#$%^&*)"

  /** The five rule messages in the order validatePassword checks them. */
  const RuleMessages: seq<string> := [LengthMessage, UpperMessage, LowerMessage, DigitMessage, SpecialMessage]

  predicate HasUpper(s: string) { exists k | 0 <= k < |s| :: 'A' <= s[k] <= 'Z' }
  predicate HasLower(s: string) { exists k | 0 <= k < |s| :: 'a' <= s[k] <= 'z' }
  predicate HasDigit(s: string) { exists k | 0 <= k < |s| :: '0' <= s[k] <= '9' }
  predicate HasSpecial(s: string) { exists k | 0 <= k < |s| :: s[k] in "!@#$%^&*" }

  /** Whether each of the five rules holds, in the source's order:
      length, upper, lower, digit, special. */
  function RuleOutcomes(password: string): (ok: seq<bool>)
    ensures |ok| == 5
  {
    [Utf16Length(password) >= 8, HasUpper(password), HasLower(password), HasDigit(password), HasSpecial(password)]
  }

  /** The position of a message among the five rules (5 for any other text). */
  function MessageRank(message: string): nat
  {
    if message == LengthMessage then 0
    else if message == UpperMessage then 1
    else if message == LowerMessage then 2
    else if message == DigitMessage then 3
    else if message == SpecialMessage then 4
    else 5
  }

  lemma RuleMessagesRanked()
    ensures forall i | 0 <= i < 5 :: MessageRank(RuleMessages[i]) == i
  {
    assert LengthMessage[14] == 'b' && UpperMessage[14] == 'c';
    assert UpperMessage[35] == 'u' && LowerMessage[35] == 'l' && DigitMessage[35] == 'n' && SpecialMessage[35] == 's';
  }

  datatype PasswordCheck = PasswordCheck(isValid: bool, errors: seq<string>)

  /** validatePassword (validators.ts:6-32): one message per failing rule, in rule order. */
  function ValidatePassword(password: string): (r: PasswordCheck)
    ensures r.isValid <==> r.errors == []
    ensures r.isValid <==> forall i | 0 <= i < 5 :: RuleOutcomes(password)[i]
    ensures forall i | 0 <= i < 5 :: RuleMessages[i] in r.errors <==> !RuleOutcomes(password)[i]
    ensures forall j | 0 <= j < |r.errors| :: MessageRank(r.errors[j]) < 5
    ensures forall j, k | 0 <= j < k < |r.errors| :: MessageRank(r.errors[j]) < MessageRank(r.errors[k])
  {
    var ok := RuleOutcomes(password);
    var failed := FailedRules(ok, 0);
    var errors := MessagesOf(failed);
    MessagesOfRanked(failed);
    assert (forall i | 0 <= i < 5 :: ok[i]) ==> failed == [] by {
      if failed != [] { assert !ok[failed[0]]; }
    }
    PasswordCheck(|errors| == 0, errors)
  }

  /** The messages of the given rules, in the same order. */
  function MessagesOf(rules: seq<nat>): (messages: seq<string>)
    requires forall j | 0 <= j < |rules| :: rules[j] < 5
    ensures |messages| == |rules| && forall j | 0 <= j < |rules| :: messages[j] == RuleMessages[rules[j]]
  {
    seq(|rules|, j requires 0 <= j < |rules| => RuleMessages[rules[j]])
  }

  /** The messages of increasing rule indices name exactly those rules, in rank order. */
  lemma MessagesOfRanked(rules: seq<nat>)
    requires forall j | 0 <= j < |rules| :: rules[j] < 5
    requires forall j, k | 0 <= j < k < |rules| :: rules[j] < rules[k]
    ensures var messages := MessagesOf(rules);
      && (forall i | 0 <= i < 5 :: RuleMessages[i] in messages <==> i in rules)
      && (forall j | 0 <= j < |messages| :: MessageRank(messages[j]) == rules[j])
  {
    var messages := MessagesOf(rules);
    RuleMessagesRanked();
    forall i | 0 <= i < 5 ensures RuleMessages[i] in messages <==> i in rules {
      if RuleMessages[i] in messages {
        var j :| 0 <= j < |messages| && messages[j] == RuleMessages[i];
        assert MessageRank(RuleMessages[rules[j]]) == rules[j];
      }
      if i in rules {
        var j :| 0 <= j < |rules| && rules[j] == i;
        assert messages[j] == RuleMessages[i];
      }
    }
  }

  /** The indices of the failing rules among rules from..|ok|-1, in increasing order. */
  function FailedRules(ok: seq<bool>, from: nat): (failed: seq<nat>)
    requires from <= |ok|
    ensures forall j | 0 <= j < |failed| :: from <= failed[j] < |ok|
    ensures forall j, k | 0 <= j < k < |failed| :: failed[j] < failed[k]
    ensures forall i | from <= i < |ok| :: i in failed <==> !ok[i]
    decreases |ok| - from
  {
    if from == |ok| then []
    else
      var rest := FailedRules(ok, from + 1);
      if ok[from] then rest else [from] + rest
  }

  // ------------------------------------------------------------ video file

  const ValidVideoTypes: seq<string> := ["video/mp4", "video/webm", "video/quicktime"]
  /** 1024 * 1024 * 1024 bytes, the 1 GB limit. */
  const MaxVideoSize: int := 1024 * 1024 * 1024
  const FormatError := "Invalid video format. Please use MP4, WebM, or QuickTime."
  const SizeError := "Video file size must not exceed 1GB."

  datatype FileCheck = FileCheck(isValid: bool, error: Option<string>)

  /** validateVideoFile (validators.ts:34-56): the MIME type is checked before the size. */
  function ValidateVideoFile(fileType: string, size: int): (r: FileCheck)
    ensures r.isValid <==> fileType in ValidVideoTypes && size <= 1073741824
    ensures r.isValid <==> r.error == None
    ensures fileType !in ValidVideoTypes ==> r.error == Some(FormatError)
    ensures fileType in ValidVideoTypes && size > 1073741824 ==> r.error == Some(SizeError)
  {
    if fileType !in ValidVideoTypes then FileCheck(false, Some(FormatError))
    else if size > MaxVideoSize then FileCheck(false, Some(SizeError))
    else FileCheck(true, None)
  }

  // ------------------------------------------------------ numeric and text

  /** validateQuizDuration (validators.ts:58-60): 1 to 180 minutes, both ends included. */
  predicate ValidateQuizDuration(duration: real)
  {
    duration >= 1.0 && duration <= 180.0
  }

  /** validateCourseTitle (validators.ts:62-64): 5 to 100 UTF-16 code units, both ends included. */
  predicate ValidateCourseTitle(title: string)
  {
    Utf16Length(title) >= 5 && Utf16Length(title) <= 100
  }

  /** validateCoursePrice (validators.ts:66-68): free up to 999.99, both ends included. */
  predicate ValidateCoursePrice(price: real)
  {
    price >= 0.0 && price <= 999.99
  }

  /** validateModuleOrder (validators.ts:70-72). */
  predicate ValidateModuleOrder(order: real, totalModules: real)
  {
    order >= 1.0 && order <= totalModules + 1.0
  }

  /** validateLessonOrder (validators.ts:74-76). */
  predicate ValidateLessonOrder(order: real, totalLessons: real)
  {
    order >= 1.0 && order <= totalLessons + 1.0
  }

  /** For whole numbers, an order is accepted exactly when it names one of the existing
      positions 1..n or the slot n + 1 right after them, which is the order an append assigns. */
  lemma {:induction false} OrderValidatorsAcceptPositions(order: int, total: nat)
    ensures ValidateModuleOrder(order as real, total as real) <==> 1 <= order <= total + 1
    ensures ValidateLessonOrder(order as real, total as real) <==> 1 <= order <= total + 1
    ensures ValidateModuleOrder((total + 1) as real, total as real)
    ensures !ValidateModuleOrder((total + 2) as real, total as real) && !ValidateModuleOrder(0.0, total as real)
  {
  }

  /** For a whole number of minutes the duration is accepted exactly from 1 to 180, and a
      quiz given such a limit starts with one minute to three hours on its clock. */
  lemma QuizDurationWholeMinutes(minutes: nat, start: int)
    ensures ValidateQuizDuration(minutes as real) <==> 1 <= minutes <= 180
    ensures ValidateQuizDuration(minutes as real) ==>
              60.0 <= QuizGateway.TimeRemaining(minutes, start, start) <= 10800.0
  {
  }

  /** A price in whole cents is accepted exactly from 0 to 99999 cents. */
  lemma CoursePriceInCents(cents: int)
    ensures ValidateCoursePrice(cents as real / 100.0) <==> 0 <= cents <= 99999
  {
  }

  /** A title of 5 to 50 characters is accepted whatever it holds; an accepted title has
      3 to 100 characters; and one written in the Basic Multilingual Plane is accepted
      exactly when it has 5 to 100 characters. */
  lemma CourseTitleLength(title: string)
    ensures 5 <= |title| <= 50 ==> ValidateCourseTitle(title)
    ensures ValidateCourseTitle(title) ==> 3 <= |title| <= 100
    ensures InBasicPlane(title) ==> (ValidateCourseTitle(title) <==> 5 <= |title| <= 100)
  {
  }

  /** Code units add up over concatenation. */
  lemma {:induction false} Utf16Append(a: string, b: string)
    ensures Utf16Length(a + b) == Utf16Length(a) + Utf16Length(b)
    decreases |a|
  {
    if a == [] {
      assert a + b == b;
    } else {
      assert (a + b)[0] == a[0];
      assert (a + b)[1..] == a[1..] + b;
      Utf16Append(a[1..], b);
    }
  }

  /** A password that meets the five rules is valid, with no message. */
  lemma AllRulesPass(password: string)
    requires Utf16Length(password) >= 8
    requires HasUpper(password) && HasLower(password) && HasDigit(password) && HasSpecial(password)
    ensures ValidatePassword(password).isValid && ValidatePassword(password).errors == []
  {
    assert forall i | 0 <= i < 5 :: RuleOutcomes(password)[i];
  }

  /** The length rule counts UTF-16 code units: four ASCII characters and two emoji make
      eight units, so this six-character password passes every rule. */
  lemma PasswordLengthInCodeUnits()
    ensures ValidatePassword("Aa1!\U{1F600}\U{1F600}").isValid
  {
    var ascii, emoji := "Aa1!", "\U{1F600}";
    var p := ascii + emoji + emoji;
    assert p == "Aa1!\U{1F600}\U{1F600}";
    assert Utf16Length(ascii) == 4 by { assert InBasicPlane(ascii); }
    assert Utf16Length(emoji) == 2 by { assert emoji[1..] == []; }
    Utf16Append(ascii, emoji);
    Utf16Append(ascii + emoji, emoji);
    assert HasUpper(p) by { assert 'A' <= p[0] <= 'Z'; }
    assert HasLower(p) by { assert 'a' <= p[1] <= 'z'; }
    assert HasDigit(p) by { assert '0' <= p[2] <= '9'; }
    assert HasSpecial(p) by { assert p[3] in "!@#$%^&*"; }
    AllRulesPass(p);
  }
}
