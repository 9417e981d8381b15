/** The login form controller: two fields with touched flags and stored
    errors, a "remember me" flag persisted through cookies, a submission
    against a simulated backend, and a silent session resume when the form
    mounts.

    React's effects become explicit steps: `Revalidate` is the two
    validation effects, `Mount` the two mount effects. A submission is split
    at its `await`: `StartSubmit` runs up to the backend call and returns
    the values the handler captured; `ResolveSubmit` runs when the call
    settles. */
module Login {
  import opened Common
  import opened Validation
  import opened Cookies

  const KnownEmail := "user@example.com"
  const KnownPassword := "Password123!"
  const MockToken := "mock-token"
  const LoginRejected := "Invalid email or password"
  const ResumeRejected := "Invalid or expired token"
  const IdleLabel := "Login"
  const LoadingLabel := "Logging in\U{2026}"

  /** `fakeLoginApi`: the one known account gets the mock token; every
      other pair is rejected with the same message. */
  function FakeLoginApi(email: string, password: string): (r: Response<string>)
    ensures r.Resolved? <==> email == KnownEmail && password == KnownPassword
    ensures r.Resolved? ==> r.value == MockToken
    ensures r.Rejected? ==> r.message == LoginRejected
  {
    if email == KnownEmail && password == KnownPassword then Resolved(MockToken)
    else Rejected(LoginRejected)
  }

  /** `fakeResumeSessionApi`: only the mock token resumes a session. */
  function FakeResumeSessionApi(token: string): (r: Response<()>)
    ensures r.Resolved? <==> token == MockToken
    ensures r.Rejected? ==> r.message == ResumeRejected
  {
    if token == MockToken then Resolved(()) else Rejected(ResumeRejected)
  }

  /** The known address matches the pattern. */
  lemma KnownEmailValid()
    ensures ValidateEmail(KnownEmail) == ""
  {
    LowercaseRun("user");
    LowercaseRun("example");
    LowercaseRun("com");
    assert KnownEmail == "user" + "@" + "example" + "." + "com";
    assert KnownEmail[..4] == "user" && KnownEmail[5..12] == "example" && KnownEmail[13..] == "com";
    assert KnownEmail[4] == '@' && KnownEmail[12] == '.';
  }

  /** The known password meets every rule. */
  lemma KnownPasswordValid()
    ensures ValidatePassword(KnownPassword) == ""
  {
    PasswordFromWitnesses(KnownPassword, 0, 11, 8, 9);
  }

  /** The known account passes both validators, so the form can reach the
      backend's success path. */
  lemma KnownCredentialsValid()
    ensures ValidateEmail(KnownEmail) == "" && ValidatePassword(KnownPassword) == ""
  {
    KnownEmailValid();
    KnownPasswordValid();
  }

  /** A token that login issues is one the resume call accepts. */
  lemma IssuedTokenResumes(email: string, password: string)
    requires FakeLoginApi(email, password).Resolved?
    ensures FakeResumeSessionApi(FakeLoginApi(email, password).value).Resolved?
  {
  }

  /** The saved token as the mount effect tests it: `null` and the empty
      string are both falsy. */
  function SavedToken(stored: Option<string>): (r: Option<string>)
    ensures r.Some? <==> stored.Some? && stored.value != ""
    ensures r.Some? ==> r == stored
  {
    if stored.Some? && stored.value != "" then stored else None
  }

  /** A remembered login leaves a jar from which the next mount reads the
      preference as set and finds a token the resume call accepts; a login
      without "remember me" reads back as unset and leaves the token as it
      was. */
  lemma RememberedLoginResumes(jar: seq<Cookie>, rememberMe: bool)
    requires WellFormedJar(jar)
    ensures var after := ApplyAll(jar, RememberMeWrites(rememberMe, MockToken));
      && WellFormedJar(after)
      && PreferenceFrom(CookieValue(Render(after), PreferenceKey)) == rememberMe
      && (rememberMe ==> SavedToken(CookieValue(Render(after), TokenKey)) == Some(MockToken))
      && (!rememberMe ==> CookieValue(Render(after), TokenKey) == CookieValue(Render(jar), TokenKey))
  {
    var token := Store(TokenKey, MockToken, TokenDays);
    var preference := Store(PreferenceKey, BoolText(rememberMe), PreferenceDays);
    if rememberMe {
      ApplyTwo(jar, token, preference);
      TokenRoundTrip(jar, MockToken);
      PreferenceRoundTrip(Apply(jar, token), true);
    } else {
      assert [preference][1..] == [];
      PreferenceRoundTrip(jar, false);
    }
  }

  /** The values the submit handler's closure captured. */
  datatype Submission = Submission(email: string, password: string, rememberMe: bool)

  /** Every state cell of the form, and the log of its effects. */
  datatype LoginState = LoginState(
    email: string, password: string, rememberMe: bool,
    touchedEmail: bool, touchedPassword: bool,
    loading: bool, error: Option<string>,
    emailError: string, passwordError: string,
    effects: seq<Effect>)

  class LoginForm {
    const cookies: CookieJar
    const prefilledEmail: string

    var email: string
    var password: string
    var rememberMe: bool
    var touchedEmail: bool
    var touchedPassword: bool
    var loading: bool
    var error: Option<string>
    var emailError: string
    var passwordError: string
    ghost var effects: seq<Effect>

    ghost function State(): LoginState
      reads this
    {
      LoginState(email, password, rememberMe, touchedEmail, touchedPassword,
                 loading, error, emailError, passwordError, effects)
    }

    /** Every touched field's stored error is its current value's
        validation: what the validation effects establish. */
    ghost predicate Settled()
      reads this
    {
      && (touchedEmail ==> emailError == ValidateEmail(email))
      && (touchedPassword ==> passwordError == ValidatePassword(password))
    }

    /** `formValid`: read from the stored errors, not from a fresh
        validation. Once both fields are touched and the effects have run,
        it holds exactly when the address matches the pattern and the
        password meets every rule. */
    predicate FormValid()
      reads this
      ensures Settled() && touchedEmail && touchedPassword ==>
        (FormValid() <==>
          MatchesEmailPattern(email) &&
          forall k :: 0 <= k < |PasswordRules| ==> Satisfies(password, PasswordRules[k]))
    {
      emailError == "" && passwordError == "" && email != "" && password != ""
    }

    /** The submit button's `disabled`: always while loading; once both
        fields are touched and settled, the button is enabled exactly when
        nothing is loading and both values pass validation. */
    predicate SubmitDisabled()
      reads this
      ensures loading ==> SubmitDisabled()
      ensures Settled() && touchedEmail && touchedPassword ==>
        (!SubmitDisabled() <==>
          !loading && MatchesEmailPattern(email) &&
          forall k :: 0 <= k < |PasswordRules| ==> Satisfies(password, PasswordRules[k]))
    {
      !FormValid() || loading
    }

    /** The submit button's text: "Logging in" and an ellipsis while
        loading, "Login" otherwise. */
    function SubmitLabel(): (r: string)
      reads this
      ensures loading ==> |r| == 11 && r[..10] == "Logging in" && r[10] == '\U{2026}'
      ensures !loading ==> r == "Login"
    {
      if loading then LoadingLabel else IdleLabel
    }

    /** The first render. */
    constructor (cookies: CookieJar, prefilledEmail: string)
      ensures this.cookies == cookies && this.prefilledEmail == prefilledEmail
      ensures State() == LoginState(prefilledEmail, "", false, false, false, false, None, "", "", [])
    {
      this.cookies := cookies;
      this.prefilledEmail := prefilledEmail;
      email, password, rememberMe := prefilledEmail, "", false;
      touchedEmail, touchedPassword := false, false;
      loading, error := false, None;
      emailError, passwordError := "", "";
      effects := [];
    }

    /** The mount effects: load the saved preference into "remember me",
        hand back a saved (truthy) token for a silent resume, and, for a
        non-empty prefilled address, set it and mark the field touched. */
    method Mount() returns (resumeToken: Option<string>)
      modifies this
      ensures resumeToken == SavedToken(CookieValue(cookies.Document(), TokenKey))
      ensures State() == old(State()).(
        rememberMe := PreferenceFrom(CookieValue(cookies.Document(), PreferenceKey)),
        email := if prefilledEmail != "" then prefilledEmail else old(email),
        touchedEmail := old(touchedEmail) || prefilledEmail != "")
    {
      rememberMe := cookies.GetRememberMePreference();
      var savedToken := cookies.GetRememberMeToken();
      resumeToken := SavedToken(savedToken);
      if prefilledEmail != "" {
        email := prefilledEmail;
        touchedEmail := true;
      }
    }

    /** The silent resume settles: an accepted token signs the user in; a
        rejected one is removed and nothing else happens. */
    method ResolveResume(token: string)
      modifies this, cookies
      ensures FakeResumeSessionApi(token).Resolved? ==>
        && State() == old(State()).(effects := old(effects) + [OnSuccess])
        && cookies.writes == old(cookies.writes) && cookies.cookies == old(cookies.cookies)
      ensures FakeResumeSessionApi(token).Rejected? ==>
        && State() == old(State())
        && cookies.writes == old(cookies.writes) + [Expire(TokenKey)]
        && cookies.cookies == Delete(old(cookies.cookies), TokenKey)
    {
      match FakeResumeSessionApi(token)
      case Resolved(_) =>
        effects := effects + [OnSuccess];
      case Rejected(_) =>
        cookies.RemoveRememberMeToken();
    }

    /** Typing in the address field; its error waits for `Revalidate`. */
    method ChangeEmail(value: string)
      modifies this
      ensures State() == old(State()).(email := value)
    {
      email := value;
    }

    /** Typing in the password field. */
    method ChangePassword(value: string)
      modifies this
      ensures State() == old(State()).(password := value)
    {
      password := value;
    }

    /** Toggling "remember me". */
    method SetRememberMe(value: bool)
      modifies this
      ensures State() == old(State()).(rememberMe := value)
    {
      rememberMe := value;
    }

    /** Leaving the address field marks it touched and changes nothing
        else, so a second blur changes nothing at all. */
    method BlurEmail()
      modifies this
      ensures State() == old(State()).(touchedEmail := true)
    {
      touchedEmail := true;
    }

    /** Leaving the password field. */
    method BlurPassword()
      modifies this
      ensures State() == old(State()).(touchedPassword := true)
    {
      touchedPassword := true;
    }

    /** The validation effects: a touched field's error is recomputed from
        its current value; an untouched field keeps its stored error. */
    method Revalidate()
      modifies this
      ensures Settled()
      ensures State() == old(State()).(
        emailError := if touchedEmail then ValidateEmail(email) else old(emailError),
        passwordError := if touchedPassword then ValidatePassword(password) else old(passwordError))
    {
      if touchedEmail {
        emailError := ValidateEmail(email);
      }
      if touchedPassword {
        passwordError := ValidatePassword(password);
      }
    }

    /** `handleSubmit` up to the backend call: both fields become touched
        and the top-level error is cleared; an invalid form stops there,
        otherwise loading starts and the captured values go to the
        backend. */
    method StartSubmit() returns (submission: Option<Submission>)
      modifies this
      ensures submission.Some? <==> old(FormValid())
      ensures submission.Some? ==> submission.value == Submission(old(email), old(password), old(rememberMe))
      ensures State() == old(State()).(
        touchedEmail := true, touchedPassword := true, error := None,
        loading := if submission.Some? then true else old(loading))
    {
      var valid := FormValid();
      touchedEmail, touchedPassword := true, true;
      error := None;
      if !valid {
        return None;
      }
      loading := true;
      submission := Some(Submission(email, password, rememberMe));
    }

    /** `handleSubmit` after the backend call settles: on success the
        remember-me cookies are written and the callback runs; on failure
        the rejection's message becomes the top-level error; loading ends
        either way. */
    method ResolveSubmit(submission: Submission)
      modifies this, cookies
      ensures var response := FakeLoginApi(submission.email, submission.password);
        var written := if response.Resolved? then RememberMeWrites(submission.rememberMe, response.value) else [];
        && cookies.writes == old(cookies.writes) + written
        && cookies.cookies == ApplyAll(old(cookies.cookies), written)
        && State() == old(State()).(
          loading := false,
          error := if response.Rejected? then Some(response.message) else old(error),
          effects := if response.Resolved? then old(effects) + [OnSuccess] else old(effects))
    {
      var response := FakeLoginApi(submission.email, submission.password);
      match response {
      case Resolved(token) =>
        if submission.rememberMe {
          cookies.SetRememberMeToken(token);
          cookies.SetRememberMePreference(true);
          ApplyTwo(old(cookies.cookies), Store(TokenKey, token, TokenDays), Store(PreferenceKey, "true", PreferenceDays));
        } else {
          cookies.SetRememberMePreference(false);
          assert [Store(PreferenceKey, "false", PreferenceDays)][1..] == [];
        }
        effects := effects + [OnSuccess];
      case Rejected(message) =>
        error := Some(message);
      }
      loading := false;
    }
  }

  /** A non-empty password without an uppercase letter fails the uppercase
      rule, the first rule it breaks. */
  lemma WeakPasswordRejected(s: string)
    requires s != "" && forall i :: 0 <= i < |s| ==> !IsAsciiUpper(s[i])
    ensures ValidatePassword(s) == PasswordNeedsUppercase
  {
    assert Satisfies(s, PasswordRules[0]);
    assert !Satisfies(s, PasswordRules[1]);
    assert FirstFailing(s, 1);
  }

  /** The stored-error quirk: fields typed into but never blurred keep the
      empty errors they started with, so an address and a password that
      both fail validation still reach the backend. */
  method UntouchedFieldsAreSubmitted() returns (submission: Option<Submission>)
    ensures submission == Some(Submission("weak", "weak", false))
    ensures ValidateEmail(submission.value.email) != ""
    ensures ValidatePassword(submission.value.password) != ""
  {
    var jar := new CookieJar([]);
    var form := new LoginForm(jar, "");
    form.ChangeEmail("weak");
    form.ChangePassword("weak");
    form.Revalidate();
    assert form.FormValid();
    submission := form.StartSubmit();
    assert ValidateEmail("weak") == EmailInvalid by {
      assert IndexOf("weak", '@') == 4;
    }
    assert forall i :: 0 <= i < |"weak"| ==> !IsAsciiUpper("weak"[i]);
    WeakPasswordRejected("weak");
  }
}
