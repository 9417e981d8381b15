/** The forgot-password page controller: one address field whose validation
    also sets a stored `formValid` flag, a prefill from the `email` search
    parameter, a submission against a simulated backend and, on success, a
    redirect to the credentials page that carries the address in its query
    string.

    The validation effect is the step `Revalidate`; a submission is split at
    its `await` into `StartSubmit` and `ResolveSubmit`. The redirect, which
    the page schedules on a timer, is recorded as soon as the call
    succeeds. */
module ForgotPassword {
  import opened Common
  import opened Validation
  import opened Uri

  const NotFoundEmail := "invalid@example.com"
  const ErrorEmail := "error@example.com"
  const NotFound := "Email not found"
  const ServerError := "Server error"
  const CredentialsPath := "/credentials"
  const RedirectPrefix := "/credentials?email="
  const IdleLabel := "Reset Password"
  const LoadingLabel := "Sending..."

  /** `fakeForgotPasswordApi`: two addresses fail, each with its own
      message; every other address succeeds. */
  function FakeForgotPasswordApi(email: string): (r: Response<()>)
    ensures r.Resolved? <==> email != NotFoundEmail && email != ErrorEmail
    ensures email == NotFoundEmail ==> r == Rejected(NotFound)
    ensures email == ErrorEmail ==> r == Rejected(ServerError)
  {
    if email == NotFoundEmail then Rejected(NotFound)
    else if email == ErrorEmail then Rejected(ServerError)
    else Resolved(())
  }

  /** Where a successful reset sends the user: the credentials page with
      the address percent-encoded as the `email` query parameter. The
      encoded value holds no character that would end the parameter or
      start a fragment. */
  function RedirectTarget(email: string): (r: string)
    ensures |r| >= |RedirectPrefix| && r[..|RedirectPrefix|] == RedirectPrefix
    ensures forall i :: |RedirectPrefix| <= i < |r| ==> r[i] !in {'&', '=', '#', '+', ' '}
    ensures DecodeURIComponent(r[|RedirectPrefix|..]) == Some(email)
  {
    var r := RedirectPrefix + EncodeURIComponent(email);
    assert r[|RedirectPrefix|..] == EncodeURIComponent(email);
    DecodeEncode(email);
    r
  }

  /** The address the tests submit goes into the query string with its
      `@` escaped. */
  lemma ExampleAddressEncoded()
    ensures EncodeURIComponent("test@example.com") == "test%40example.com"
  {
    ExampleHalvesUnreserved();
    EncodeAddress("test", "example.com");
    assert "test" + "@" + "example.com" == "test@example.com";
    assert "test" + "%40" + "example.com" == "test%40example.com";
  }

  /** Both halves of that address are unreserved. */
  lemma ExampleHalvesUnreserved()
    ensures forall i :: 0 <= i < |"test"| ==> IsUnreserved("test"[i])
    ensures forall i :: 0 <= i < |"example.com"| ==> IsUnreserved("example.com"[i])
  {
  }

  /** An address whose two halves hold only unreserved characters is
      encoded with just its `@` escaped. */
  lemma EncodeAddress(local: string, domain: string)
    requires forall i :: 0 <= i < |local| ==> IsUnreserved(local[i])
    requires forall i :: 0 <= i < |domain| ==> IsUnreserved(domain[i])
    ensures EncodeURIComponent(local + "@" + domain) == local + "%40" + domain
  {
    EncodeAppend(local + "@", domain);
    EncodeAppend(local, "@");
    UnreservedUnchanged(local);
    UnreservedUnchanged(domain);
    EncodeAt();
  }

  /** `@` is escaped as its one UTF-8 octet, 0x40. */
  lemma EncodeAt()
    ensures EncodeURIComponent("@") == "%40"
  {
    assert !IsUnreserved('@');
    assert Utf8('@') == [64];
    assert Escapes([64]) == PercentEscape(64) + Escapes([]);
    assert EncodeURIComponent("@") == EncodeChar('@') + EncodeURIComponent([]);
  }

  /** A string of unreserved characters encodes to itself. */
  lemma {:induction false} UnreservedUnchanged(s: string)
    requires forall i :: 0 <= i < |s| ==> IsUnreserved(s[i])
    ensures EncodeURIComponent(s) == s
  {
    if s != [] {
      UnreservedUnchanged(s[1..]);
      assert [s[0]] + s[1..] == s;
    }
  }

  /** Encoding works character by character, so it distributes over
      concatenation. */
  lemma {:induction false} EncodeAppend(a: string, b: string)
    ensures EncodeURIComponent(a + b) == EncodeURIComponent(a) + EncodeURIComponent(b)
  {
    if a != [] {
      assert (a + b)[0] == a[0] && (a + b)[1..] == a[1..] + b;
      EncodeAppend(a[1..], b);
    } else {
      assert a + b == b;
    }
  }

  /** Every state cell of the page, the last validated value and the log
      of its effects. */
  datatype ForgotState = ForgotState(
    email: string, success: bool, loading: bool, touchedEmail: bool,
    formValid: bool, error: Option<string>, emailError: string,
    validated: Option<string>, effects: seq<Effect>)

  class ForgotPasswordPage {
    var email: string
    var success: bool
    var loading: bool
    var touchedEmail: bool
    var formValid: bool
    var error: Option<string>
    var emailError: string
    /** The value the validation last ran on, `None` before it first ran. */
    ghost var validated: Option<string>
    ghost var effects: seq<Effect>

    ghost function State(): ForgotState
      reads this
    {
      ForgotState(email, success, loading, touchedEmail, formValid, error, emailError, validated, effects)
    }

    /** The stored error and the stored `formValid` were set together by
        the last validation; before the first one the flag is false and
        the error empty. */
    ghost predicate Valid()
      reads this
    {
      && (validated.None? ==> !formValid && emailError == "")
      && (validated.Some? ==> emailError == ValidateEmail(validated.value) && formValid == (emailError == ""))
    }

    /** A touched field has been validated at its current value. */
    ghost predicate Settled()
      reads this
    {
      touchedEmail ==> validated == Some(email)
    }

    /** The submit button's `disabled`: always while loading; otherwise
        enabled exactly when the value last validated matches the pattern,
        which, once the touched field is settled, is the current value. */
    predicate SubmitDisabled()
      reads this
      ensures loading ==> SubmitDisabled()
      ensures Valid() ==>
        (!SubmitDisabled() <==> !loading && validated.Some? && MatchesEmailPattern(validated.value))
      ensures Valid() && Settled() && touchedEmail ==>
        (!SubmitDisabled() <==> !loading && MatchesEmailPattern(email))
    {
      !formValid || loading
    }

    /** The submit button's text: the sending label exactly while
        loading, the idle label otherwise. */
    function SubmitLabel(): (r: string)
      reads this
      ensures r == LoadingLabel <==> loading
      ensures r != LoadingLabel ==> r == IdleLabel
    {
      if loading then LoadingLabel else IdleLabel
    }

    /** The first render: `formValid` starts false. */
    constructor ()
      ensures Valid() && Settled()
      ensures State() == ForgotState("", false, false, false, false, None, "", None, [])
    {
      email, success, loading, touchedEmail := "", false, false, false;
      formValid, error, emailError := false, None, "";
      validated := None;
      effects := [];
    }

    /** `debouncedEmailValidation`: the error and `formValid` are set from
        one validation of `value`. */
    method Validate(value: string)
      modifies this
      ensures Valid()
      ensures formValid <==> MatchesEmailPattern(value)
      ensures State() == old(State()).(
        emailError := ValidateEmail(value), formValid := ValidateEmail(value) == "",
        validated := Some(value))
    {
      emailError := ValidateEmail(value);
      formValid := emailError == "";
      validated := Some(value);
    }

    /** The validation effect: a touched field is validated at its current
        value; an untouched one keeps its stored error and flag. */
    method Revalidate()
      modifies this
      requires Valid()
      ensures Valid() && Settled()
      ensures touchedEmail ==> State() == old(State()).(
        emailError := ValidateEmail(email), formValid := ValidateEmail(email) == "",
        validated := Some(email))
      ensures !touchedEmail ==> State() == old(State())
    {
      if touchedEmail {
        Validate(email);
      }
    }

    /** The search-parameter effect: a non-empty `email` parameter becomes
        the value and marks the field touched; an absent or empty one
        changes nothing. */
    method ApplySearchParam(param: Option<string>)
      modifies this
      ensures param.Some? && param.value != "" ==>
        State() == old(State()).(email := param.value, touchedEmail := true)
      ensures !(param.Some? && param.value != "") ==> State() == old(State())
    {
      if param.Some? && param.value != "" {
        touchedEmail := true;
        email := param.value;
      }
    }

    /** `handleOnChange`: the value is set, the field touched and the new
        value validated at once, so the page is settled afterwards. */
    method Change(value: string)
      modifies this
      ensures Valid() && Settled()
      ensures formValid <==> MatchesEmailPattern(value)
      ensures State() == old(State()).(
        email := value, touchedEmail := true,
        emailError := ValidateEmail(value), formValid := ValidateEmail(value) == "",
        validated := Some(value))
    {
      email := value;
      touchedEmail := true;
      Validate(value);
    }

    /** Leaving the field marks it touched. */
    method Blur()
      modifies this
      ensures State() == old(State()).(touchedEmail := true)
    {
      touchedEmail := true;
    }

    /** `handleSubmit` up to the backend call: the field becomes touched
        and the top-level error is cleared; when the stored `formValid` is
        false it stops there, otherwise loading starts and the captured
        address goes to the backend. */
    method StartSubmit() returns (submitted: Option<string>)
      modifies this
      ensures submitted.Some? <==> old(formValid)
      ensures submitted.Some? ==> submitted.value == old(email)
      ensures State() == old(State()).(
        touchedEmail := true, error := None,
        loading := if submitted.Some? then true else old(loading))
    {
      touchedEmail := true;
      error := None;
      if !formValid {
        return None;
      }
      loading := true;
      submitted := Some(email);
    }

    /** `handleSubmit` after the backend call settles: on success the page
        shows success and redirects to the credentials page with the
        submitted address; on failure the rejection's message becomes the
        error and `success` is left as it was; loading ends either way. */
    method ResolveSubmit(submitted: string)
      modifies this
      ensures var response := FakeForgotPasswordApi(submitted);
        State() == old(State()).(
          loading := false,
          success := if response.Resolved? then true else old(success),
          error := if response.Rejected? then Some(response.message) else old(error),
          effects := if response.Resolved? then old(effects) + [Navigate(RedirectTarget(submitted))] else old(effects))
    {
      var response := FakeForgotPasswordApi(submitted);
      match response {
      case Resolved(_) =>
        success := true;
        effects := effects + [Navigate(RedirectTarget(submitted))];
      case Rejected(message) =>
        error := Some(message);
      }
      loading := false;
    }

    /** "Back to Login" always goes to the credentials page. */
    method BackToLogin()
      modifies this
      ensures State() == old(State()).(effects := old(effects) + [Navigate(CredentialsPath)])
    {
      effects := effects + [Navigate(CredentialsPath)];
    }
  }

  /** The stored flag speaks about the value last validated: in a valid
      page it is set exactly when that value matches the pattern, and once
      the page is settled with the field touched, that value is the current
      one. */
  lemma FormValidMeansValidated(p: ForgotPasswordPage)
    requires p.Valid()
    ensures p.formValid <==> p.validated.Some? && MatchesEmailPattern(p.validated.value)
    ensures p.Settled() && p.touchedEmail ==> (p.formValid <==> MatchesEmailPattern(p.email))
  {
  }
}
