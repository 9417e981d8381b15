/** The sign-up form controller: address, password and confirmation, each
    with a touched flag and a stored error, and a submission against a
    simulated backend. The confirmation's error depends on the password as
    well as on its own value.

    As in the login form, React's validation effects are one explicit step,
    `Revalidate`, and a submission is split at its `await` into
    `StartSubmit` and `ResolveSubmit`. */
module SignUp {
  import opened Common
  import opened Validation
  import Uri

  const TakenEmail := "taken@example.com"
  const NewUserEmail := "newuser@example.com"
  const NewUserPassword := "Password123!"
  const MockToken := "mock-token"
  const EmailInUse := "Email already in use"
  const ServerError := "Server error"
  const IdleLabel := "Sign Up"

  /** The loading label the button is meant to show: "Signing up" and a
      horizontal ellipsis. */
  const LoadingLabel := "Signing up\U{2026}"

  /** The loading label as the component spells it: the three UTF-8 octets
      of the ellipsis each read back as a character of their own. */
  const LoadingLabelAsWritten := "Signing up\U{00E2}\U{20AC}\U{00A6}"

  /** `fakeSignUpApi`: the taken address is refused whatever the password;
      only the new account's address and password succeed; everything else
      is a server error. */
  function FakeSignUpApi(email: string, password: string): (r: Response<string>)
    ensures email == TakenEmail ==> r == Rejected(EmailInUse)
    ensures r.Resolved? <==> email == NewUserEmail && password == NewUserPassword
    ensures r.Resolved? ==> r.value == MockToken
    ensures r.Rejected? && email != TakenEmail ==> r.message == ServerError
  {
    if email == TakenEmail then Rejected(EmailInUse)
    else if email == NewUserEmail && password == NewUserPassword then Resolved(MockToken)
    else Rejected(ServerError)
  }

  /** The new account's address matches the pattern. */
  lemma NewUserEmailValid()
    ensures ValidateEmail(NewUserEmail) == ""
  {
    LowercaseRun("newuser");
    LowercaseRun("example");
    LowercaseRun("com");
    assert NewUserEmail[..7] == "newuser" && NewUserEmail[8..15] == "example" && NewUserEmail[16..] == "com";
    assert NewUserEmail[7] == '@' && NewUserEmail[15] == '.';
  }

  /** The taken address matches the pattern too, so the refusal comes from
      the backend and not from the form. */
  lemma TakenEmailValid()
    ensures ValidateEmail(TakenEmail) == ""
  {
    LowercaseRun("taken");
    LowercaseRun("example");
    LowercaseRun("com");
    assert TakenEmail[..5] == "taken" && TakenEmail[6..13] == "example" && TakenEmail[14..] == "com";
    assert TakenEmail[5] == '@' && TakenEmail[13] == '.';
  }

  /** The new account's password meets every rule and confirms itself, so
      the success path is reachable through a valid form. */
  lemma NewUserPasswordValid()
    ensures ValidatePassword(NewUserPassword) == ""
    ensures ValidateConfirmPassword(NewUserPassword, NewUserPassword) == ""
  {
    PasswordFromWitnesses(NewUserPassword, 0, 11, 8, 9);
  }

  /** The spelled label is the ellipsis's UTF-8 encoding, octet by octet,
      in place of the ellipsis: two characters longer than the intended
      label and different from it. */
  lemma LoadingLabelAsWrittenIsMisencoded()
    ensures Uri.Utf8('\U{2026}') == [0xE2, 0x80, 0xA6]
    ensures |LoadingLabelAsWritten| == |LoadingLabel| + 2
    ensures LoadingLabelAsWritten[..10] == LoadingLabel[..10]
    ensures LoadingLabelAsWritten[10] as int == 0xE2 && LoadingLabelAsWritten[12] as int == 0xA6
    ensures LoadingLabelAsWritten != LoadingLabel
  {
    assert LoadingLabelAsWritten[10] != LoadingLabel[10];
  }

  /** The values the submit handler's closure captured. Only the address
      and the password go to the backend. */
  datatype Submission = Submission(email: string, password: string)

  /** Every state cell of the form, and the log of its effects. */
  datatype SignUpState = SignUpState(
    email: string, password: string, confirmPassword: string,
    touchedEmail: bool, touchedPassword: bool, touchedConfirm: bool,
    loading: bool, error: Option<string>,
    emailError: string, passwordError: string, confirmError: string,
    effects: seq<Effect>)

  class SignUpForm {
    /** Whether the caller passed an `onSuccess` callback. */
    const hasOnSuccess: bool

    var email: string
    var password: string
    var confirmPassword: string
    var touchedEmail: bool
    var touchedPassword: bool
    var touchedConfirm: bool
    var loading: bool
    var error: Option<string>
    var emailError: string
    var passwordError: string
    var confirmError: string
    ghost var effects: seq<Effect>

    ghost function State(): SignUpState
      reads this
    {
      SignUpState(email, password, confirmPassword,
                  touchedEmail, touchedPassword, touchedConfirm,
                  loading, error, emailError, passwordError, confirmError, effects)
    }

    /** Every touched field's stored error is the validation of the current
        values; the confirmation is checked against the current password. */
    ghost predicate Settled()
      reads this
    {
      && (touchedEmail ==> emailError == ValidateEmail(email))
      && (touchedPassword ==> passwordError == ValidatePassword(password))
      && (touchedConfirm ==> confirmError == ValidateConfirmPassword(confirmPassword, password))
    }

    /** `formValid`: read from the three stored errors and the three
        values. Once all three fields are touched and the effects have run,
        it holds exactly when the address matches the pattern, the password
        meets every rule and the confirmation equals the password. */
    predicate FormValid()
      reads this
      ensures Settled() && touchedEmail && touchedPassword && touchedConfirm ==>
        (FormValid() <==>
          && MatchesEmailPattern(email)
          && (forall k :: 0 <= k < |PasswordRules| ==> Satisfies(password, PasswordRules[k]))
          && confirmPassword == password)
    {
      && emailError == "" && passwordError == "" && confirmError == ""
      && email != "" && password != "" && confirmPassword != ""
    }

    /** The submit button's `disabled`: always while loading; once all
        fields are touched and settled, the button is enabled exactly when
        nothing is loading and the three values pass validation. */
    predicate SubmitDisabled()
      reads this
      ensures loading ==> SubmitDisabled()
      ensures Settled() && touchedEmail && touchedPassword && touchedConfirm ==>
        (!SubmitDisabled() <==>
          && !loading
          && MatchesEmailPattern(email)
          && (forall k :: 0 <= k < |PasswordRules| ==> Satisfies(password, PasswordRules[k]))
          && confirmPassword == password)
    {
      !FormValid() || loading
    }

    /** The submit button's text, with the loading label spelled as
        intended. */
    function SubmitLabel(): (r: string)
      reads this
      ensures loading ==> |r| == 11 && r[..10] == "Signing up" && r[10] == '\U{2026}'
      ensures !loading ==> r == IdleLabel
    {
      if loading then LoadingLabel else IdleLabel
    }

    /** The submit button's text as the component spells it. */
    function SubmitLabelAsWritten(): (r: string)
      reads this
      ensures loading ==> r == LoadingLabelAsWritten && r != SubmitLabel()
      ensures !loading ==> r == SubmitLabel()
    {
      LoadingLabelAsWrittenIsMisencoded();
      if loading then LoadingLabelAsWritten else IdleLabel
    }

    /** The first render. */
    constructor (hasOnSuccess: bool)
      ensures this.hasOnSuccess == hasOnSuccess
      ensures State() == SignUpState("", "", "", false, false, false, false, None, "", "", "", [])
    {
      this.hasOnSuccess := hasOnSuccess;
      email, password, confirmPassword := "", "", "";
      touchedEmail, touchedPassword, touchedConfirm := false, false, false;
      loading, error := false, None;
      emailError, passwordError, confirmError := "", "", "";
      effects := [];
    }

    /** Typing in the address field; its error waits for `Revalidate`. */
    method ChangeEmail(value: string)
      modifies this
      ensures State() == old(State()).(email := value)
    {
      email := value;
    }

    /** Typing in the password field. */
    method ChangePassword(value: string)
      modifies this
      ensures State() == old(State()).(password := value)
    {
      password := value;
    }

    /** Typing in the confirmation field. */
    method ChangeConfirmPassword(value: string)
      modifies this
      ensures State() == old(State()).(confirmPassword := value)
    {
      confirmPassword := value;
    }

    /** Leaving the address field. */
    method BlurEmail()
      modifies this
      ensures State() == old(State()).(touchedEmail := true)
    {
      touchedEmail := true;
    }

    /** Leaving the password field. */
    method BlurPassword()
      modifies this
      ensures State() == old(State()).(touchedPassword := true)
    {
      touchedPassword := true;
    }

    /** Leaving the confirmation field. */
    method BlurConfirmPassword()
      modifies this
      ensures State() == old(State()).(touchedConfirm := true)
    {
      touchedConfirm := true;
    }

    /** The three validation effects: a touched field's error is recomputed
        from the current values, so a touched confirmation follows a change
        of the password as well as of its own value; an untouched field
        keeps its stored error. */
    method Revalidate()
      modifies this
      ensures Settled()
      ensures State() == old(State()).(
        emailError := if touchedEmail then ValidateEmail(email) else old(emailError),
        passwordError := if touchedPassword then ValidatePassword(password) else old(passwordError),
        confirmError := if touchedConfirm then ValidateConfirmPassword(confirmPassword, password) else old(confirmError))
    {
      if touchedEmail {
        emailError := ValidateEmail(email);
      }
      if touchedPassword {
        passwordError := ValidatePassword(password);
      }
      if touchedConfirm {
        confirmError := ValidateConfirmPassword(confirmPassword, password);
      }
    }

    /** `handleSubmit` up to the backend call: all three fields become
        touched and the top-level error is cleared; an invalid form stops
        there, otherwise loading starts and the captured address and
        password go to the backend. */
    method StartSubmit() returns (submission: Option<Submission>)
      modifies this
      ensures submission.Some? <==> old(FormValid())
      ensures submission.Some? ==> submission.value == Submission(old(email), old(password))
      ensures State() == old(State()).(
        touchedEmail := true, touchedPassword := true, touchedConfirm := true, error := None,
        loading := if submission.Some? then true else old(loading))
    {
      var valid := FormValid();
      touchedEmail, touchedPassword, touchedConfirm := true, true, true;
      error := None;
      if !valid {
        return None;
      }
      loading := true;
      submission := Some(Submission(email, password));
    }

    /** `handleSubmit` after the backend call settles: on success the
        callback runs if one was given; on failure the rejection's message
        becomes the top-level error; loading ends either way. */
    method ResolveSubmit(submission: Submission)
      modifies this
      ensures var response := FakeSignUpApi(submission.email, submission.password);
        State() == old(State()).(
          loading := false,
          error := if response.Rejected? then Some(response.message) else old(error),
          effects := if response.Resolved? && hasOnSuccess then old(effects) + [OnSuccess] else old(effects))
    {
      var response := FakeSignUpApi(submission.email, submission.password);
      match response {
      case Resolved(_) =>
        if hasOnSuccess {
          effects := effects + [OnSuccess];
        }
      case Rejected(message) =>
        error := Some(message);
      }
      loading := false;
    }
  }

  /** An example run of the confirmation following the password: with a
      touched confirmation equal to the new account's password, changing
      the password to "Password124!" gives the mismatch error after the
      effects run, and changing it back gives "" again. The rule for every
      input is the ensures of `SignUpForm.Revalidate`. */
  method ConfirmationFollowsPassword() returns (mismatch: string, matched: string)
    ensures mismatch == PasswordsMismatch
    ensures matched == ""
  {
    var form := new SignUpForm(false);
    form.ChangePassword(NewUserPassword);
    form.ChangeConfirmPassword(NewUserPassword);
    form.BlurConfirmPassword();
    form.Revalidate();
    form.ChangePassword("Password124!");
    form.Revalidate();
    mismatch := form.confirmError;
    form.ChangePassword(NewUserPassword);
    form.Revalidate();
    matched := form.confirmError;
  }
}
