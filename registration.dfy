/**
 * The user-registration screen of the Android client: five text fields,
 * a validation chain that stops at the first failed check, the clearing of
 * the password fields after a password failure, the "clear" button, and the
 * choice of the message shown after a create-user request.
 */
module Registration {

  /** Shortest password the screen accepts. */
  const MinPasswordLength := 4

  /**
   * The platform's e-mail address pattern. Its grammar is not part of this
   * model, so every operation that consults it takes it as a parameter.
   */
  type EmailPattern = string -> bool

  /** Why a registration attempt was refused, one per check of the chain. */
  datatype Reason = InvalidEmail | InvalidNames | BlankPassword | PasswordMismatch | PasswordTooShort

  /** Outcome of the validation chain: accepted, or refused for exactly one reason. */
  datatype Verdict = Valid | Invalid(reason: Reason)

  /** The five text fields of the screen. */
  datatype FieldId = Email | Password | ConfirmPwd | FirstName | LastName

  /** The text held by each of the five fields. */
  datatype FormState = FormState(email: string, password: string, confirmPwd: string,
                                 firstName: string, lastName: string)
  {
    function Get(field: FieldId): string
    {
      match field
      case Email => email
      case Password => password
      case ConfirmPwd => confirmPwd
      case FirstName => firstName
      case LastName => lastName
    }

    /** The state after one field's text is replaced. */
    function With(field: FieldId, text: string): (s: FormState)
      ensures s.Get(field) == text
      ensures forall g :: g != field ==> s.Get(g) == Get(g)
    {
      match field
      case Email => this.(email := text)
      case Password => this.(password := text)
      case ConfirmPwd => this.(confirmPwd := text)
      case FirstName => this.(firstName := text)
      case LastName => this.(lastName := text)
    }
  }

  /** Every field empty: the state of a freshly cleared screen. */
  const Cleared := FormState("", "", "", "", "")

  /** The request the screen sends to create a user, in the argument order of the client call. */
  datatype NewUserRequest = NewUserRequest(email: string, password: string, firstName: string, lastName: string)

  /** The message shown once a create-user request has completed. */
  datatype Report = EmailTaken | UserCreated

  /** What pressing "confirm" leads to. */
  datatype ConfirmOutcome = Rejected(reason: Reason) | Submitted(request: NewUserRequest, report: Report)

  /**
   * The length of a string as Java's `String.length()` counts it: one UTF-16
   * code unit per character, two for a character outside the Basic
   * Multilingual Plane (a surrogate pair).
   */
  function Utf16Length(s: string): (n: nat)
    ensures |s| <= n <= 2 * |s|
    ensures (forall i :: 0 <= i < |s| ==> s[i] as int <= 0xFFFF) ==> n == |s|
    ensures |s| == 1 ==> n == if s[0] as int > 0xFFFF then 2 else 1
  {
    if s == [] then 0
    else (if s[0] as int > 0xFFFF then 2 else 1) + Utf16Length(s[1..])
  }

  /**
   * The length of a concatenation is the sum of the lengths; with the
   * one-character case above this fixes the length of every string.
   */
  lemma {:induction false} Utf16LengthConcat(a: string, b: string)
    ensures Utf16Length(a + b) == Utf16Length(a) + Utf16Length(b)
  {
    if a != [] {
      assert (a + b)[1..] == a[1..] + b;
      Utf16LengthConcat(a[1..], b);
    } else {
      assert a + b == b;
    }
  }

  /** An address is accepted when it is not empty and the platform pattern matches it. */
  function ValidateEmailAddress(emailAddr: string, pattern: EmailPattern): (ok: bool)
    ensures emailAddr == "" ==> !ok
    ensures emailAddr != "" ==> (ok <==> pattern(emailAddr))
  {
    if emailAddr == "" then false else pattern(emailAddr)
  }

  /** The validation chain: the first check that fails decides the reason. */
  function Verify(f: FormState, pattern: EmailPattern): (v: Verdict)
    ensures v == Valid ==> f.email != "" && f.password == f.confirmPwd
                           && Utf16Length(f.password) >= MinPasswordLength
    ensures v == Invalid(PasswordMismatch) || v == Invalid(PasswordTooShort)
            ==> f.password != "" && f.confirmPwd != ""
  {
    if !ValidateEmailAddress(f.email, pattern) then Invalid(InvalidEmail)
    else if f.firstName == "" || f.lastName == "" then Invalid(InvalidNames)
    else if f.password == "" || f.confirmPwd == "" then Invalid(BlankPassword)
    else if f.password != f.confirmPwd then Invalid(PasswordMismatch)
    else if Utf16Length(f.password) < MinPasswordLength then Invalid(PasswordTooShort)
    else Valid
  }

  /** The check that reports reason `r`, taken on its own. */
  predicate Passes(r: Reason, f: FormState, pattern: EmailPattern)
  {
    match r
    case InvalidEmail => ValidateEmailAddress(f.email, pattern)
    case InvalidNames => f.firstName != "" && f.lastName != ""
    case BlankPassword => f.password != "" && f.confirmPwd != ""
    case PasswordMismatch => f.password == f.confirmPwd
    case PasswordTooShort => Utf16Length(f.password) >= MinPasswordLength
  }

  /** Position of each check in the chain. */
  function Rank(r: Reason): nat
  {
    match r
    case InvalidEmail => 0
    case InvalidNames => 1
    case BlankPassword => 2
    case PasswordMismatch => 3
    case PasswordTooShort => 4
  }

  /** `r` is the earliest failing check. */
  predicate FirstFailure(r: Reason, f: FormState, pattern: EmailPattern)
  {
    !Passes(r, f, pattern) && forall q :: Rank(q) < Rank(r) ==> Passes(q, f, pattern)
  }

  /** The reported reason is exactly the earliest failing check. */
  lemma VerifyReportsFirstFailure(f: FormState, pattern: EmailPattern, r: Reason)
    ensures Verify(f, pattern) == Invalid(r) <==> FirstFailure(r, f, pattern)
  {
    if FirstFailure(r, f, pattern) {
      assert Rank(InvalidEmail) < Rank(r) ==> Passes(InvalidEmail, f, pattern);
      assert Rank(InvalidNames) < Rank(r) ==> Passes(InvalidNames, f, pattern);
      assert Rank(BlankPassword) < Rank(r) ==> Passes(BlankPassword, f, pattern);
      assert Rank(PasswordMismatch) < Rank(r) ==> Passes(PasswordMismatch, f, pattern);
    }
  }

  /** The chain accepts exactly when every check passes. */
  lemma VerifyValidIffAllPass(f: FormState, pattern: EmailPattern)
    ensures Verify(f, pattern) == Valid <==> forall r :: Passes(r, f, pattern)
  {
    if forall r :: Passes(r, f, pattern) {
      assert Passes(InvalidEmail, f, pattern) && Passes(InvalidNames, f, pattern)
        && Passes(BlankPassword, f, pattern) && Passes(PasswordMismatch, f, pattern)
        && Passes(PasswordTooShort, f, pattern);
    }
  }

  /** An empty address is refused as an invalid e-mail whatever the other fields hold. */
  lemma EmptyEmailRejected(f: FormState, pattern: EmailPattern)
    requires f.email == ""
    ensures Verify(f, pattern) == Invalid(InvalidEmail)
  {
  }

  /**
   * Names are checked with `isEmpty` only: the name check fails exactly when a
   * name is the empty string, so names made of blanks pass it.
   */
  lemma NamesRejectedIffEmpty(f: FormState, pattern: EmailPattern)
    ensures Verify(f, pattern) == Invalid(InvalidNames) <==>
              ValidateEmailAddress(f.email, pattern) && (f.firstName == "" || f.lastName == "")
  {
  }

  /**
   * The length check counts UTF-16 code units: a password of two letters and
   * one character outside the Basic Multilingual Plane has length 4 and is long enough.
   */
  lemma SurrogatePairCountsTwice(f: FormState, pattern: EmailPattern)
    requires ValidateEmailAddress(f.email, pattern) && f.firstName != "" && f.lastName != ""
    requires f.password == "ab\U{1F600}" && f.confirmPwd == f.password
    ensures |f.password| == 3
    ensures Verify(f, pattern) == Valid
  {
    assert Utf16Length(f.password) == 4 by {
      var smile := "\U{1F600}";
      assert smile[0] as int > 0xFFFF && smile[1..] == "";
      assert Utf16Length(smile) == 2;
      assert ("b" + smile)[1..] == smile;
      assert Utf16Length("b" + smile) == 3;
      assert f.password == "a" + ("b" + smile) && f.password[1..] == "b" + smile;
    }
  }

  /** The two failures after which the screen clears both password fields. */
  predicate ClearsPasswords(v: Verdict)
  {
    v == Invalid(PasswordMismatch) || v == Invalid(PasswordTooShort)
  }

  /** The fields after the validation chain has run. */
  function AfterVerify(f: FormState, pattern: EmailPattern): (g: FormState)
    ensures g.email == f.email && g.firstName == f.firstName && g.lastName == f.lastName
    ensures ClearsPasswords(Verify(f, pattern)) ==> g.password == "" && g.confirmPwd == ""
    ensures g == f <==> !ClearsPasswords(Verify(f, pattern))
  {
    if ClearsPasswords(Verify(f, pattern)) then f.(password := "", confirmPwd := "") else f
  }

  /** After a mismatch or a short password, confirming again reports blank passwords. */
  lemma ResubmitAfterPasswordFailure(f: FormState, pattern: EmailPattern)
    requires ClearsPasswords(Verify(f, pattern))
    ensures Verify(AfterVerify(f, pattern), pattern) == Invalid(BlankPassword)
  {
  }

  /** On every other path, confirming again reports the same verdict. */
  lemma VerifyAgainSameVerdict(f: FormState, pattern: EmailPattern)
    requires !ClearsPasswords(Verify(f, pattern))
    ensures Verify(AfterVerify(f, pattern), pattern) == Verify(f, pattern)
  {
  }

  /** A cleared screen is refused at the first check. */
  lemma ClearedFormRejected(pattern: EmailPattern)
    ensures Verify(Cleared, pattern) == Invalid(InvalidEmail)
  {
  }

  /**
   * The message after a create-user request. A failure of the request is
   * swallowed, so `taskThrew` does not influence the choice: only the
   * presence of a session user does.
   */
  function ReportAfterSubmit(taskThrew: bool, sessionHasUser: bool): (r: Report)
    ensures r == EmailTaken <==> !sessionHasUser
    ensures r == UserCreated <==> sessionHasUser
  {
    if !sessionHasUser then EmailTaken else UserCreated
  }

  /** A thrown exception and a normal return lead to the same message. */
  lemma ReportIgnoresException(sessionHasUser: bool)
    ensures ReportAfterSubmit(true, sessionHasUser) == ReportAfterSubmit(false, sessionHasUser)
  {
  }

  /** The registration screen and its five text fields. */
  class RegistrationForm {
    var email: string
    var password: string
    var confirmPwd: string
    var firstName: string
    var lastName: string

    /** The screen as it is created: every field empty. */
    constructor ()
      ensures State() == Cleared
    {
      email, password, confirmPwd, firstName, lastName := "", "", "", "", "";
    }

    function State(): FormState
      reads this
    {
      FormState(email, password, confirmPwd, firstName, lastName)
    }

    /** Replaces the text of one field, as the user's typing or `setText` does. */
    method SetText(field: FieldId, text: string)
      modifies this
      ensures State() == old(State()).With(field, text)
    {
      match field
      case Email => email := text;
      case Password => password := text;
      case ConfirmPwd => confirmPwd := text;
      case FirstName => firstName := text;
      case LastName => lastName := text;
    }

    /** Empties the password and the confirmation fields. */
    method ResetPasswords()
      modifies this
      ensures State() == old(State()).(password := "", confirmPwd := "")
    {
      SetText(Password, "");
      SetText(ConfirmPwd, "");
    }

    /** The "clear" button: each field of the screen is reset in turn. */
    method OnClearClick()
      modifies this
      ensures State() == Cleared
    {
      var fields := [Email, Password, ConfirmPwd, FirstName, LastName];
      for i := 0 to |fields|
        invariant forall k :: 0 <= k < i ==> State().Get(fields[k]) == ""
      {
        SetText(fields[i], "");
      }
      assert fields[0] == Email && fields[1] == Password && fields[2] == ConfirmPwd;
      assert fields[3] == FirstName && fields[4] == LastName;
      assert State().Get(fields[0]) == "" && State().Get(fields[1]) == "" && State().Get(fields[2]) == "";
      assert State().Get(fields[3]) == "" && State().Get(fields[4]) == "";
    }

    /**
     * Runs the validation chain over the current fields; clears both
     * password fields after a mismatch or a short password.
     */
    method VerifyInput(pattern: EmailPattern) returns (ok: bool)
      modifies this
      ensures ok <==> Verify(old(State()), pattern) == Valid
      ensures State() == AfterVerify(old(State()), pattern)
    {
      var v := Verify(State(), pattern);
      if ClearsPasswords(v) {
        ResetPasswords();
      }
      ok := v == Valid;
    }

    /**
     * The "confirm" button. The request is sent only after the chain accepts
     * the fields; `taskThrew` and `sessionHasUser` stand for what the
     * request did to the outside world.
     */
    method OnConfirmClick(pattern: EmailPattern, taskThrew: bool, sessionHasUser: bool)
      returns (outcome: ConfirmOutcome)
      modifies this
      ensures outcome.Submitted? <==> Verify(old(State()), pattern) == Valid
      ensures outcome.Rejected? ==> Verify(old(State()), pattern) == Invalid(outcome.reason)
      ensures outcome.Submitted? ==>
                outcome.request == NewUserRequest(old(email), old(password), old(firstName), old(lastName))
                && outcome.report == ReportAfterSubmit(taskThrew, sessionHasUser)
      ensures State() == AfterVerify(old(State()), pattern)
    {
      var emailAddr, fName, lName, pwd := email, firstName, lastName, password;
      var verdict := Verify(State(), pattern);
      var ok := VerifyInput(pattern);
      if ok {
        var request := NewUserRequest(emailAddr, pwd, fName, lName);
        outcome := Submitted(request, ReportAfterSubmit(taskThrew, sessionHasUser));
      } else {
        outcome := Rejected(verdict.reason);
      }
    }
  }
}
