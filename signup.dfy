/** The sign-up form of src/pages/Signup.jsx: the two checks made before the account is created,
    the submit handler around the sign-up call, and the two requirement indicators under the
    password fields. The sign-up call itself is a parameter (its outcome). */
module Signup {
  import opened Strings

  const MismatchError: string := "Passwords do not match"
  const TooShortError: string := "Password must be at least 6 characters"
  const MinLength: int := 6

  /** The error the form reports before calling sign-up, if any: a mismatch is reported first,
      a short password only when the two agree. */
  function Validate(password: string, confirm: string): (error: Option<string>)
    ensures error.None? <==> password == confirm && Utf16Length(password) >= MinLength
    ensures password != confirm ==> error == Some(MismatchError)
    ensures password == confirm && Utf16Length(password) < MinLength ==> error == Some(TooShortError)
  {
    if password != confirm then Some(MismatchError)
    else if Utf16Length(password) < MinLength then Some(TooShortError)
    else None
  }

  /** The "At least 6 characters" dot is lit (`password.length` counts UTF-16 code units). */
  predicate LengthIndicator(password: string) {
    Utf16Length(password) >= MinLength
  }

  /** The "Passwords match" dot is lit. */
  predicate MatchIndicator(password: string, confirm: string) {
    password == confirm && Utf16Length(password) > 0
  }

  /** The form goes through to sign-up exactly when both dots are lit. */
  lemma IndicatorsPredictSubmit(password: string, confirm: string)
    ensures Validate(password, confirm).None? <==> LengthIndicator(password) && MatchIndicator(password, confirm)
  {
  }

  /** Three characters outside the Basic Multilingual Plane make six UTF-16 code units, so such
      a password passes the length check although it has only three characters. */
  lemma AstralPasswordLongEnough()
    ensures var p := "\U{1F512}\U{1F512}\U{1F512}"; |p| == 3 && Validate(p, p).None?
  {
    var c := '\U{1F512}';
    assert c as int > 0xFFFF;
    assert Utf16Length([c]) == 2 by { assert [c][..0] == []; }
    assert Utf16Length([c, c]) == 4 by { assert [c, c][..1] == [c]; }
    assert Utf16Length([c, c, c]) == 6 by { assert [c, c, c][..2] == [c, c]; }
    assert "\U{1F512}\U{1F512}\U{1F512}" == [c, c, c];
  }

  /** What the sign-up call did. */
  datatype SignUpOutcome = SignedUp | SignUpFailed(message: string)

  class SignupPage {
    var email: string
    var password: string
    var confirmPassword: string
    var error: string
    var loading: bool
    /** Where the page navigated to, if anywhere. */
    var location: Option<string>

    constructor ()
      ensures email == "" && password == "" && confirmPassword == "" && error == "" && !loading
      ensures location == None
    {
      email := "";
      password := "";
      confirmPassword := "";
      error := "";
      loading := false;
      location := None;
    }

    /** `handleSubmit`. `called` says whether sign-up was attempted; `outcome` is what it did. */
    method Submit(outcome: SignUpOutcome) returns (called: bool)
      modifies this
      ensures called <==> Validate(password, confirmPassword).None?
      ensures !called ==> error == Validate(password, confirmPassword).value &&
                          loading == old(loading) && location == old(location)
      ensures called && outcome.SignedUp? ==> error == "" && location == Some("/dashboard")
      ensures called && outcome.SignUpFailed? ==> error == outcome.message && location == old(location)
      ensures called ==> !loading
      ensures email == old(email) && password == old(password) && confirmPassword == old(confirmPassword)
    {
      error := "";
      if password != confirmPassword {
        error := MismatchError;
        return false;
      }
      if Utf16Length(password) < MinLength {
        error := TooShortError;
        return false;
      }
      loading := true;
      called := true;
      match outcome {
        case SignedUp =>
          location := Some("/dashboard");
        case SignUpFailed(message) =>
          error := message;
      }
      loading := false;
    }
  }
}
