/** The sign-in form of src/pages/Login.tsx: field validation and the fixed credential check,
    with the one-second delay split into two steps and storage and navigation returned as a value. */
module Login {
  import opened Common

  const ValidUsername: string := "user"
  const ValidPassword: string := "user"

  const FillAllFieldsError: string := "Пожалуйста, заполните все поля"
  const WrongCredentialsError: string := "Неверный логин или пароль. Попробуйте снова."

  /** The form's error text and loading flag. */
  datatype Form = Form(error: string, loading: bool)

  /** The effects of a successful sign-in: the `isAuthenticated` flag and the `userEmail` value
      written to local storage, and the route navigated to. */
  datatype SignIn = SignIn(authFlag: string, storedLogin: string, route: string)

  /** The form once the synchronous part of `handleSubmit` has run, and whether the delayed
      credential check was scheduled. */
  datatype Submitted = Submitted(form: Form, checkScheduled: bool)

  /** `handleSubmit` up to the timer: clear the error, set loading, then reject an empty field at once. */
  function BeginSubmit(form: Form, login: string, password: string): (r: Submitted)
    ensures r.checkScheduled <==> login != "" && password != ""
    ensures !r.checkScheduled ==> r.form == Form(FillAllFieldsError, false)
    ensures r.checkScheduled ==> r.form == Form("", true)
  {
    var cleared := Form("", true);
    if login == "" || password == "" then Submitted(cleared.(error := FillAllFieldsError, loading := false), false)
    else Submitted(cleared, true)
  }

  /** The form and effects once the delayed credential check has run. */
  datatype Checked = Checked(form: Form, signIn: Option<SignIn>)

  /** The timer callback: accept exactly the fixed pair, otherwise show the wrong-credentials error;
      loading ends either way. */
  function FinishCheck(form: Form, login: string, password: string): (r: Checked)
    ensures !r.form.loading
    ensures r.signIn.Some? <==> login == ValidUsername && password == ValidPassword
    ensures r.signIn.Some? ==> r.signIn.value == SignIn("true", login, "/") && r.form.error == form.error
    ensures r.signIn.None? ==> r.form.error == WrongCredentialsError
  {
    if login == ValidUsername && password == ValidPassword then
      Checked(form.(loading := false), Some(SignIn("true", login, "/")))
    else
      Checked(form.(error := WrongCredentialsError, loading := false), None)
  }

  /** The three ways a submission ends. */
  datatype Verdict = EmptyField | Success | WrongCredentials

  /** The decision the form makes from the two fields, stated on its own. */
  function Decide(login: string, password: string): (v: Verdict)
    ensures v == EmptyField <==> login == "" || password == ""
    ensures v == Success <==> login == ValidUsername && password == ValidPassword
  {
    if login == "" || password == "" then EmptyField
    else if login == ValidUsername && password == ValidPassword then Success
    else WrongCredentials
  }

  /** A whole submission: the synchronous part, then, when scheduled, the credential check. */
  function HandleSubmit(form: Form, login: string, password: string): (r: Checked)
    ensures !r.form.loading
    ensures r.signIn.Some? <==> login == ValidUsername && password == ValidPassword
    ensures r.signIn.Some? ==> r.signIn.value == SignIn("true", login, "/") && r.form.error == ""
    ensures r.form.error == FillAllFieldsError <==> login == "" || password == ""
    ensures r.form.error == WrongCredentialsError <==>
      login != "" && password != "" && !(login == ValidUsername && password == ValidPassword)
  {
    var s := BeginSubmit(form, login, password);
    if s.checkScheduled then FinishCheck(s.form, login, password) else Checked(s.form, None)
  }

  /** The submission ends not loading, with the error and the effects the decision calls for: no
      credential check for an empty field, a sign-in with no error for the fixed pair, the
      wrong-credentials error for anything else. */
  lemma SubmitFollowsDecision(form: Form, login: string, password: string)
    ensures var c := HandleSubmit(form, login, password);
      && !c.form.loading
      && (Decide(login, password) == EmptyField ==> c == Checked(Form(FillAllFieldsError, false), None))
      && (Decide(login, password) == Success ==> c == Checked(Form("", false), Some(SignIn("true", login, "/"))))
      && (Decide(login, password) == WrongCredentials ==> c == Checked(Form(WrongCredentialsError, false), None))
  {
  }
}
