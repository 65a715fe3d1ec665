/**
 * The sign-up page: the password guard that runs before the account is
 * requested, and the page state it updates. The call to the
 * authentication provider is split in two: `HandleSubmit` returns the
 * request it would send (or none), and `FinishSignUp` takes the
 * provider's answer.
 */
module Signup {
  import opened Wrappers

  /** A toast: destructive ones report an error. */
  datatype Toast = Toast(destructive: bool, title: string, description: string)

  const MismatchToast := Toast(true, "Password mismatch", "Passwords do not match")
  const TooShortToast := Toast(true, "Password too short", "Password must be at least 6 characters")
  const CreatedToast := Toast(false, "Account created!", "Please check your email to verify your account.")

  /** The shortest password the page accepts. */
  const MinPasswordLength := 6

  /**
   * `s.length`: JavaScript counts UTF-16 code units, so a character
   * outside the Basic Multilingual Plane counts twice.
   */
  function Utf16Length(s: string): (n: nat)
    ensures |s| <= n <= 2 * |s|
  {
    if s == [] then 0 else (if s[0] as int < 0x1_0000 then 1 else 2) + Utf16Length(s[1..])
  }

  /** A string of Basic Multilingual Plane characters has one code unit per character. */
  lemma {:induction false} BmpLength(s: string)
    requires forall i :: 0 <= i < |s| ==> s[i] as int < 0x1_0000
    ensures Utf16Length(s) == |s|
  {
    if s != [] {
      assert forall i :: 0 <= i < |s[1..]| ==> s[1..][i] == s[i + 1];
      BmpLength(s[1..]);
    }
  }

  /** Why `handleSubmit` refuses to send the request. */
  datatype PasswordFault = Mismatch | TooShort

  /** The guard of `handleSubmit`: the confirmation is compared first, then the length. */
  function PasswordFaultOf(password: string, confirmPassword: string): (r: Option<PasswordFault>)
    ensures r == Some(Mismatch) <==> password != confirmPassword
    ensures r == Some(TooShort) <==> password == confirmPassword && Utf16Length(password) < MinPasswordLength
  {
    if password != confirmPassword then Some(Mismatch)
    else if Utf16Length(password) < MinPasswordLength then Some(TooShort)
    else None
  }

  /** The toast each refusal shows. */
  function FaultToast(f: PasswordFault): Toast {
    match f
    case Mismatch => MismatchToast
    case TooShort => TooShortToast
  }

  /** The toast `handleSubmit` stops with, or `None` when the account may be requested. */
  function PasswordProblem(password: string, confirmPassword: string): (r: Option<Toast>)
    ensures r.None? <==> password == confirmPassword && Utf16Length(password) >= MinPasswordLength
    ensures r.Some? ==> r.value.destructive
  {
    match PasswordFaultOf(password, confirmPassword)
    case None => None
    case Some(f) => Some(FaultToast(f))
  }

  /** A mismatch is reported as such, however short the password. */
  lemma MismatchTakesPrecedence(password: string, confirmPassword: string)
    requires password != confirmPassword
    ensures PasswordProblem(password, confirmPassword) == Some(MismatchToast)
    ensures PasswordProblem(password, confirmPassword) != Some(TooShortToast)
  {
  }

  /**
   * Matching passwords are refused only for being short: six characters
   * are always enough, fewer than three never are, and in between it
   * depends on how many lie outside the Basic Multilingual Plane.
   */
  lemma LengthBoundary(password: string)
    ensures Utf16Length(password) < MinPasswordLength <==> PasswordFaultOf(password, password) == Some(TooShort)
    ensures |password| >= 6 ==> PasswordFaultOf(password, password).None?
    ensures |password| < 3 ==> PasswordFaultOf(password, password) == Some(TooShort)
    ensures (forall i :: 0 <= i < |password| ==> password[i] as int < 0x1_0000) ==>
      (PasswordFaultOf(password, password).None? <==> |password| >= 6)
  {
    if forall i :: 0 <= i < |password| ==> password[i] as int < 0x1_0000 {
      BmpLength(password);
    }
  }

  /** Three emoji are six code units, so they make a long enough password. */
  lemma ThreeEmojiAreEnough()
    ensures PasswordProblem("\U{1F600}\U{1F600}\U{1F600}", "\U{1F600}\U{1F600}\U{1F600}").None?
  {
    var p := "\U{1F600}\U{1F600}\U{1F600}";
    assert p[1..][1..][1..] == [];
    assert Utf16Length(p) == 6;
  }

  class SignupPage {
    var email: string
    var password: string
    var confirmPassword: string
    var loading: bool
    /** The toasts shown so far, oldest first. */
    var toasts: seq<Toast>
    /** Where the page has scheduled a move to, if anywhere. */
    var redirect: Option<string>

    constructor ()
      ensures email == "" && password == "" && confirmPassword == ""
      ensures !loading && toasts == [] && redirect.None?
    {
      email, password, confirmPassword := "", "", "";
      loading, toasts, redirect := false, [], None;
    }

    method SetEmail(value: string)
      modifies this
      ensures email == value
      ensures password == old(password) && confirmPassword == old(confirmPassword)
      ensures loading == old(loading) && toasts == old(toasts) && redirect == old(redirect)
    {
      email := value;
    }

    method SetPassword(value: string)
      modifies this
      ensures password == value
      ensures email == old(email) && confirmPassword == old(confirmPassword)
      ensures loading == old(loading) && toasts == old(toasts) && redirect == old(redirect)
    {
      password := value;
    }

    method SetConfirmPassword(value: string)
      modifies this
      ensures confirmPassword == value
      ensures email == old(email) && password == old(password)
      ensures loading == old(loading) && toasts == old(toasts) && redirect == old(redirect)
    {
      confirmPassword := value;
    }

    /**
     * `handleSubmit` up to the call to `signUp`: a failed guard shows
     * its toast and sends nothing; a passed one sets `loading` and
     * returns the email and password to send.
     */
    method HandleSubmit() returns (request: Option<(string, string)>)
      modifies this
      ensures request.Some? <==> password == confirmPassword && Utf16Length(password) >= MinPasswordLength
      ensures request.Some? ==> request.value == (email, password) && loading && toasts == old(toasts)
      ensures request.None? ==>
        toasts == old(toasts) + [PasswordProblem(password, confirmPassword).value] && loading == old(loading)
      ensures email == old(email) && password == old(password) && confirmPassword == old(confirmPassword)
      ensures redirect == old(redirect)
    {
      var problem := PasswordProblem(password, confirmPassword);
      if problem.Some? {
        toasts := toasts + [problem.value];
        return None;
      }
      loading := true;
      request := Some((email, password));
    }

    /**
     * The rest of `handleSubmit`, once `signUp` answers: an error is shown
     * and `loading` cleared; success is announced and a move to the login
     * page scheduled, with `loading` left set.
     */
    method FinishSignUp(error: Option<string>)
      modifies this
      ensures error.Some? ==>
        toasts == old(toasts) + [Toast(true, "Signup failed", error.value)] && !loading && redirect == old(redirect)
      ensures error.None? ==>
        toasts == old(toasts) + [CreatedToast] && loading == old(loading) && redirect == Some("/login")
      ensures email == old(email) && password == old(password) && confirmPassword == old(confirmPassword)
    {
      if error.Some? {
        toasts := toasts + [Toast(true, "Signup failed", error.value)];
        loading := false;
      } else {
        toasts := toasts + [CreatedToast];
        redirect := Some("/login");
      }
    }
  }
}
