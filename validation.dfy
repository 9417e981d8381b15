/** The field validators of the credential forms. Each is a total function
    from the raw field text to an error message, where the empty string means
    "valid"; each checks its rules in a fixed order and reports only the first
    one that fails. */
module Validation {
  import opened Common

  const EmailRequired := "Email is required."
  const EmailInvalid := "Enter a valid email address."
  const PasswordRequired := "Password is required."
  const PasswordNeedsUppercase := "Password must contain at least one uppercase letter."
  const PasswordNeedsSpecial := "Password must contain at least one special character."
  const PasswordNeedsTwoDigits := "Password must contain at least two numbers."
  const ConfirmRequired := "Please confirm your password."
  const PasswordsMismatch := "Passwords do not match."

  /* ---------------------------------------------------------------------
     Email
     --------------------------------------------------------------------- */

  /** The characters JavaScript's `\s` class matches: WhiteSpace and
      LineTerminator of ECMA-262 section 12.2 and 12.3, where the Unicode
      "Space_Separator" (Zs) category is taken as of Unicode 15. */
  predicate IsWhitespace(c: char) {
    || c == '\t' || c == '\n' || c == '\U{000B}' || c == '\U{000C}' || c == '\r'
    || c == ' ' || c == '\U{00A0}' || c == '\U{1680}'
    || ('\U{2000}' <= c <= '\U{200A}')
    || c == '\U{2028}' || c == '\U{2029}' || c == '\U{202F}' || c == '\U{205F}'
    || c == '\U{3000}' || c == '\U{FEFF}'
  }

  /** The class `[^@\s]`. */
  predicate IsAddressChar(c: char) {
    c != '@' && !IsWhitespace(c)
  }

  /** `[^@\s]+` matches the whole of `t`. */
  predicate IsAddressRun(t: string) {
    |t| > 0 && forall i :: 0 <= i < |t| ==> IsAddressChar(t[i])
  }

  /** The regular expression `^[^@\s]+@[^@\s]+\.[^@\s]+$` read as a
      language: some split of `s` around an `@` at `i` and a `.` at `j`
      leaves three non-empty runs of address characters. */
  ghost predicate MatchesEmailPattern(s: string) {
    exists i, j :: 0 <= i < j < |s| && s[i] == '@' && s[j] == '.' &&
      IsAddressRun(s[..i]) && IsAddressRun(s[i + 1..j]) && IsAddressRun(s[j + 1..])
  }

  /** The same test, written without search: `s` has exactly one `@`, with
      a non-empty local part before it, no whitespace anywhere, and a domain
      after it holding a `.` that is neither its first nor its last
      character. */
  predicate HasEmailShape(s: string) {
    var at := IndexOf(s, '@');
    var domain := if at < |s| then s[at + 1..] else [];
    && 0 < at < |s|
    && IsAddressRun(s[..at])
    && IsAddressRun(domain)
    && |domain| >= 3 && '.' in domain[1..|domain| - 1]
  }

  /** Every string the hand-written test accepts matches the pattern: the
      `@` is the one `IndexOf` finds and the `.` is the first one strictly
      inside the domain. */
  lemma EmailShapeMatches(s: string)
    requires HasEmailShape(s)
    ensures MatchesEmailPattern(s)
  {
    var at := IndexOf(s, '@');
    var domain := s[at + 1..];
    var inner := domain[1..|domain| - 1];
    var k := IndexOf(inner, '.');
    var j := at + 2 + k;
    assert s[j] == '.' by { assert s[j] == domain[k + 1] == inner[k]; }
    var left, right := s[at + 1..j], s[j + 1..];
    assert IsAddressRun(left) by {
      forall m | 0 <= m < |left| ensures IsAddressChar(left[m]) {
        assert left[m] == domain[m];
      }
    }
    assert IsAddressRun(right) by {
      forall m | 0 <= m < |right| ensures IsAddressChar(right[m]) {
        assert right[m] == domain[k + 2 + m];
      }
    }
    assert s[at] == '@' && IsAddressRun(s[..at]);
    assert 0 <= at < j < |s|;
  }

  /** An `@` preceded only by address characters is the first `@`. */
  lemma FirstAt(s: string, i: nat)
    requires i < |s| && s[i] == '@' && IsAddressRun(s[..i])
    ensures IndexOf(s, '@') == i
  {
    forall m | 0 <= m < i
      ensures s[m] != '@'
    {
      assert s[..i][m] == s[m];
    }
  }

  /** Two runs of address characters joined by a `.` are one run. */
  lemma DottedRun(a: string, b: string)
    requires IsAddressRun(a) && IsAddressRun(b)
    ensures IsAddressRun(a + ['.'] + b)
  {
    var d := a + ['.'] + b;
    forall m | 0 <= m < |d| ensures IsAddressChar(d[m]) {
      if m < |a| {
        assert d[m] == a[m];
      } else if m > |a| {
        assert d[m] == b[m - |a| - 1];
      }
    }
  }

  /** Every string the pattern matches passes the hand-written test. */
  lemma PatternHasEmailShape(s: string)
    requires MatchesEmailPattern(s)
    ensures HasEmailShape(s)
  {
    var i, j :| 0 <= i < j < |s| && s[i] == '@' && s[j] == '.' &&
      IsAddressRun(s[..i]) && IsAddressRun(s[i + 1..j]) && IsAddressRun(s[j + 1..]);
    ShapeOfMatch(s, i, j);
  }

  /** A match with its `@` at `i` and its `.` at `j`: the three runs hold
      no `@`, so the matched `@` is the first one, and the matched `.` lies
      strictly inside the domain. */
  lemma ShapeOfMatch(s: string, i: nat, j: nat)
    requires i < j < |s| && s[i] == '@' && s[j] == '.'
    requires IsAddressRun(s[..i]) && IsAddressRun(s[i + 1..j]) && IsAddressRun(s[j + 1..])
    ensures HasEmailShape(s)
  {
    FirstAt(s, i);
    var domain := s[i + 1..];
    var left, right := s[i + 1..j], s[j + 1..];
    assert domain == left + ['.'] + right;
    DottedRun(left, right);
    assert |domain| >= 3;
    var inner := domain[1..|domain| - 1];
    assert inner[j - i - 2] == domain[j - i - 1] == '.';
  }

  /** The hand-written test accepts exactly the strings the regular
      expression matches. */
  lemma EmailShapeIffPattern(s: string)
    ensures HasEmailShape(s) <==> MatchesEmailPattern(s)
  {
    if HasEmailShape(s) { EmailShapeMatches(s); }
    if MatchesEmailPattern(s) { PatternHasEmailShape(s); }
  }

  /** A run of lowercase ASCII letters is a run of address characters. */
  lemma LowercaseRun(t: string)
    requires |t| > 0 && forall i :: 0 <= i < |t| ==> 'a' <= t[i] <= 'z'
    ensures IsAddressRun(t)
  {
  }

  /** `validateEmail`: "required" for the empty string, "invalid" for a
      string outside the pattern, and "" exactly for a matching address. */
  function ValidateEmail(s: string): (r: string)
    ensures r == "" <==> MatchesEmailPattern(s)
    ensures s == "" ==> r == EmailRequired
    ensures s != "" && !MatchesEmailPattern(s) ==> r == EmailInvalid
    ensures r == EmailRequired || r == EmailInvalid || r == ""
  {
    EmailShapeIffPattern(s);
    if s == [] then EmailRequired
    else if !HasEmailShape(s) then EmailInvalid
    else ""
  }

  /* ---------------------------------------------------------------------
     Password
     --------------------------------------------------------------------- */

  /** The class `[A-Z]`. */
  predicate IsAsciiUpper(c: char) { 'A' <= c <= 'Z' }

  /** The class `[!@#$%^&*(),.?":{}|<>]`. */
  predicate IsSpecial(c: char) { c in "!@#$%^&*(),.?\":{}|<>" }

  /** The class `\d`, which in JavaScript is the ASCII digits only. */
  predicate IsAsciiDigit(c: char) { '0' <= c <= '9' }

  /** The length of `s.match(/\d/g)`, counting 0 for a `null` match. */
  function CountDigits(s: string): (n: nat)
    ensures n <= |s|
  {
    if s == [] then 0
    else (if IsAsciiDigit(s[0]) then 1 else 0) + CountDigits(s[1..])
  }

  /** A digit count of at least one is a digit somewhere. */
  lemma {:induction false} CountDigitsPositive(s: string)
    ensures CountDigits(s) >= 1 <==> exists i :: 0 <= i < |s| && IsAsciiDigit(s[i])
  {
    if s != [] {
      CountDigitsPositive(s[1..]);
      if exists i :: 0 <= i < |s[1..]| && IsAsciiDigit(s[1..][i]) {
        var i :| 0 <= i < |s[1..]| && IsAsciiDigit(s[1..][i]);
        assert IsAsciiDigit(s[i + 1]);
      }
      if exists i :: 0 <= i < |s| && IsAsciiDigit(s[i]) {
        var i :| 0 <= i < |s| && IsAsciiDigit(s[i]);
        if i > 0 { assert IsAsciiDigit(s[1..][i - 1]); }
      }
    }
  }

  /** A digit count of at least two is two digits at distinct positions. */
  lemma {:induction false} CountDigitsAtLeastTwo(s: string)
    ensures CountDigits(s) >= 2 <==>
      exists i, j :: 0 <= i < j < |s| && IsAsciiDigit(s[i]) && IsAsciiDigit(s[j])
  {
    if s != [] {
      var t := s[1..];
      CountDigitsAtLeastTwo(t);
      CountDigitsPositive(t);
      if CountDigits(s) >= 2 {
        if IsAsciiDigit(s[0]) {
          var j :| 0 <= j < |t| && IsAsciiDigit(t[j]);
          assert IsAsciiDigit(s[0]) && IsAsciiDigit(s[j + 1]);
        } else {
          var i, j :| 0 <= i < j < |t| && IsAsciiDigit(t[i]) && IsAsciiDigit(t[j]);
          assert IsAsciiDigit(s[i + 1]) && IsAsciiDigit(s[j + 1]);
        }
      }
      if exists i, j :: 0 <= i < j < |s| && IsAsciiDigit(s[i]) && IsAsciiDigit(s[j]) {
        var i, j :| 0 <= i < j < |s| && IsAsciiDigit(s[i]) && IsAsciiDigit(s[j]);
        assert IsAsciiDigit(t[j - 1]);
        if i > 0 { assert IsAsciiDigit(t[i - 1]); }
      }
    }
  }

  /** The password rules, in the order `validatePassword` checks them. */
  datatype PasswordRule = NonEmpty | HasUppercase | HasSpecial | HasTwoDigits

  const PasswordRules: seq<PasswordRule> := [NonEmpty, HasUppercase, HasSpecial, HasTwoDigits]

  /** What each rule demands of a password, stated over positions. */
  ghost predicate Satisfies(s: string, rule: PasswordRule) {
    match rule
    case NonEmpty => s != ""
    case HasUppercase => exists i :: 0 <= i < |s| && IsAsciiUpper(s[i])
    case HasSpecial => exists i :: 0 <= i < |s| && IsSpecial(s[i])
    case HasTwoDigits => exists i, j :: 0 <= i < j < |s| && IsAsciiDigit(s[i]) && IsAsciiDigit(s[j])
  }

  /** The message reported when `rule` is the first one that fails. */
  function RuleMessage(rule: PasswordRule): string {
    match rule
    case NonEmpty => PasswordRequired
    case HasUppercase => PasswordNeedsUppercase
    case HasSpecial => PasswordNeedsSpecial
    case HasTwoDigits => PasswordNeedsTwoDigits
  }

  /** Rule number `k` fails on `s` and every earlier rule holds. */
  ghost predicate FirstFailing(s: string, k: int) {
    && 0 <= k < |PasswordRules|
    && !Satisfies(s, PasswordRules[k])
    && forall m :: 0 <= m < k ==> Satisfies(s, PasswordRules[m])
  }

  /** `validatePassword`: "" exactly when every rule holds, and otherwise the
      message of the first rule that fails. */
  function ValidatePassword(s: string): (r: string)
    ensures r == "" <==> forall k :: 0 <= k < |PasswordRules| ==> Satisfies(s, PasswordRules[k])
    ensures forall k :: FirstFailing(s, k) ==> r == RuleMessage(PasswordRules[k])
  {
    CountDigitsAtLeastTwo(s);
    assert PasswordRules == [NonEmpty, HasUppercase, HasSpecial, HasTwoDigits];
    if s == [] then
      assert !Satisfies(s, PasswordRules[0]);
      PasswordRequired
    else if !(exists i :: 0 <= i < |s| && IsAsciiUpper(s[i])) then
      assert !Satisfies(s, PasswordRules[1]);
      PasswordNeedsUppercase
    else if !(exists i :: 0 <= i < |s| && IsSpecial(s[i])) then
      assert !Satisfies(s, PasswordRules[2]);
      PasswordNeedsSpecial
    else if CountDigits(s) < 2 then
      assert !Satisfies(s, PasswordRules[3]);
      PasswordNeedsTwoDigits
    else ""
  }

  /** A password with an uppercase letter, a special character and two
      digits at the given positions passes. */
  lemma PasswordFromWitnesses(s: string, upper: nat, special: nat, d1: nat, d2: nat)
    requires upper < |s| && IsAsciiUpper(s[upper])
    requires special < |s| && IsSpecial(s[special])
    requires d1 < d2 < |s| && IsAsciiDigit(s[d1]) && IsAsciiDigit(s[d2])
    ensures ValidatePassword(s) == ""
  {
    assert PasswordRules == [NonEmpty, HasUppercase, HasSpecial, HasTwoDigits];
    assert Satisfies(s, HasUppercase) && Satisfies(s, HasSpecial) && Satisfies(s, HasTwoDigits);
  }

  /** Some rule always fails first on a rejected password, so its message
      is always one of the four rule messages. */
  lemma PasswordFailureHasFirstRule(s: string)
    requires ValidatePassword(s) != ""
    ensures exists k :: FirstFailing(s, k)
  {
    if !Satisfies(s, PasswordRules[0]) { assert FirstFailing(s, 0); }
    else if !Satisfies(s, PasswordRules[1]) { assert FirstFailing(s, 1); }
    else if !Satisfies(s, PasswordRules[2]) { assert FirstFailing(s, 2); }
    else { assert FirstFailing(s, 3); }
  }

  /* ---------------------------------------------------------------------
     Password confirmation
     --------------------------------------------------------------------- */

  /** `validateConfirmPassword`: "required" for an empty confirmation,
      whatever the password; "do not match" for any other value that differs
      from the password; "" exactly for a non-empty copy of it. */
  function ValidateConfirmPassword(value: string, password: string): (r: string)
    ensures r == "" <==> value != "" && value == password
    ensures value == "" ==> r == ConfirmRequired
    ensures value != "" && value != password ==> r == PasswordsMismatch
  {
    if value == [] then ConfirmRequired
    else if value != password then PasswordsMismatch
    else ""
  }

  /** All eight messages are distinct and non-empty, so a field's error
      names the one rule that failed. */
  lemma MessagesDistinct()
    ensures var all := [EmailRequired, EmailInvalid, PasswordRequired, PasswordNeedsUppercase,
                        PasswordNeedsSpecial, PasswordNeedsTwoDigits, ConfirmRequired, PasswordsMismatch];
            (forall k :: 0 <= k < |all| ==> all[k] != "") &&
            (forall k, m :: 0 <= k < m < |all| ==> all[k] != all[m])
  {
  }
}
