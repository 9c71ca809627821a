/** The registration form of app/auth/register/page.tsx: four text fields,
    a change handler that writes one field, and a submit handler that
    checks the passwords and then reports that registration is not yet
    available. React state is modelled as a value; each `setState` call the
    submit handler makes is recorded in order. */
module Register {

  datatype Field = Name | Email | Password | ConfirmPassword

  datatype FormData = FormData(name: string, email: string, password: string, confirmPassword: string)

  /** The page's state: the form, `isLoading` and `error`. */
  datatype State = State(form: FormData, isLoading: bool, error: string)

  /** A state update the submit handler makes. */
  datatype Update = SetError(message: string) | SetLoading(loading: bool)

  const PasswordsDiffer: string := "Passwords do not match"
  const PasswordTooShort: string := "Password must be at least 8 characters long"
  const NotImplemented: string := "Registration functionality will be implemented in a future update."
  const MinPasswordLength: nat := 8

  /** The form the page starts with: every field empty. */
  const InitialForm: FormData := FormData("", "", "", "")

  const InitialState: State := State(InitialForm, false, "")

  function Get(form: FormData, field: Field): string
  {
    match field
    case Name => form.name
    case Email => form.email
    case Password => form.password
    case ConfirmPassword => form.confirmPassword
  }

  /** `handleChange`: `{ ...prev, [name]: value }` for the input named `field`. */
  function HandleChange(form: FormData, field: Field, value: string): (r: FormData)
    ensures Get(r, field) == value
    ensures forall other :: other != field ==> Get(r, other) == Get(form, other)
  {
    match field
    case Name => form.(name := value)
    case Email => form.(email := value)
    case Password => form.(password := value)
    case ConfirmPassword => form.(confirmPassword := value)
  }

  /** JavaScript's `length` of a string: its UTF-16 code units, two for a
      character outside the Basic Multilingual Plane. */
  function Utf16Length(s: string): (n: nat)
    ensures |s| <= n <= 2 * |s|
    ensures |s| == 1 ==> n == if s[0] as int >= 0x1_0000 then 2 else 1
    ensures (forall i :: 0 <= i < |s| ==> s[i] as int < 0x1_0000) ==> n == |s|
    ensures (forall i :: 0 <= i < |s| ==> s[i] as int >= 0x1_0000) ==> n == 2 * |s|
  {
    if |s| == 0 then 0
    else (if s[0] as int >= 0x1_0000 then 2 else 1) + Utf16Length(s[1..])
  }

  /** The length of a concatenation is the sum of the lengths: with the
      one-character case, this pins the length of every string. */
  lemma {:induction false} Utf16LengthAppend(a: string, b: string)
    ensures Utf16Length(a + b) == Utf16Length(a) + Utf16Length(b)
    decreases |a|
  {
    if |a| == 0 {
      assert a + b == b;
    } else {
      assert (a + b)[1..] == a[1..] + b;
      Utf16LengthAppend(a[1..], b);
    }
  }

  /** The input the form accepts, stated apart from the handler: matching
      passwords of at least eight UTF-16 units. */
  predicate Acceptable(form: FormData)
  {
    form.password == form.confirmPassword && Utf16Length(form.password) >= MinPasswordLength
  }

  /** `handleSubmit`: the state updates it makes, in order. The simulated
      request always resolves, so the handler's `catch` branch is never
      taken. */
  function Submit(form: FormData): (updates: seq<Update>)
    ensures |updates| > 0 && (updates[|updates| - 1].SetError? || updates[|updates| - 1] == SetLoading(false))
    ensures form.password != form.confirmPassword ==> updates == [SetError(PasswordsDiffer)]
    ensures (exists k :: 0 <= k < |updates| && updates[k] == SetLoading(true)) <==> Acceptable(form)
  {
    if form.password != form.confirmPassword then [SetError(PasswordsDiffer)]
    else if Utf16Length(form.password) < MinPasswordLength then [SetError(PasswordTooShort)]
    else
      var u := [SetLoading(true), SetError(""), SetError(NotImplemented), SetLoading(false)];
      assert u[0] == SetLoading(true);
      u
  }

  /** Applying one update to the state. */
  function Apply(s: State, u: Update): State
  {
    match u
    case SetError(message) => s.(error := message)
    case SetLoading(loading) => s.(isLoading := loading)
  }

  /** Applying the updates in order. */
  function ApplyAll(s: State, us: seq<Update>): State
    decreases |us|
  {
    if |us| == 0 then s else ApplyAll(Apply(s, us[0]), us[1..])
  }

  // ---------------------------------------------------------------------
  // Properties

  /** Changing a field twice keeps the second value; changing two different
      fields can be done in either order. */
  lemma ChangesCompose(form: FormData, f: Field, g: Field, v: string, w: string)
    ensures HandleChange(HandleChange(form, f, v), f, w) == HandleChange(form, f, w)
    ensures f != g ==>
              HandleChange(HandleChange(form, f, v), g, w) == HandleChange(HandleChange(form, g, w), f, v)
  {
  }

  /** The state after a submit: the error shown and the loading flag, for
      each outcome. The mismatch check comes first, the length check
      second; the loading flag is back to false whenever it was raised. */
  lemma SubmitOutcome(s: State)
    ensures var r := ApplyAll(s, Submit(s.form));
            && r.form == s.form
            && (s.form.password != s.form.confirmPassword ==>
                  r == s.(error := PasswordsDiffer))
            && (s.form.password == s.form.confirmPassword && !Acceptable(s.form) ==>
                  r == s.(error := PasswordTooShort))
            && (Acceptable(s.form) ==> r == s.(isLoading := false, error := NotImplemented))
  {
    var us := Submit(s.form);
    if Acceptable(s.form) {
      var s1 := Apply(s, SetLoading(true));
      var s2 := Apply(s1, SetError(""));
      var s3 := Apply(s2, SetError(NotImplemented));
      var s4 := Apply(s3, SetLoading(false));
      assert ApplyAll(s, us) == ApplyAll(s1, us[1..]);
      assert ApplyAll(s1, us[1..]) == ApplyAll(s2, us[2..]);
      assert ApplyAll(s2, us[2..]) == ApplyAll(s3, us[3..]);
      assert ApplyAll(s3, us[3..]) == ApplyAll(s4, us[4..]);
      assert us[4..] == [];
    } else {
      assert us[1..] == [];
    }
  }

  /** Loading is on between the first two updates of an accepted submit,
      with the error cleared, before the final message replaces it. */
  lemma LoadingWhileWaiting(s: State)
    requires Acceptable(s.form)
    ensures ApplyAll(s, Submit(s.form)[..2]) == s.(isLoading := true, error := "")
  {
    var us := Submit(s.form)[..2];
    assert ApplyAll(s, us) == ApplyAll(Apply(s, SetLoading(true)), us[1..]);
    assert us[1..][1..] == [];
  }

  /** The length rule counts UTF-16 units: a password of four characters
      outside the Basic Multilingual Plane passes it. */
  lemma AstralPasswordPasses()
    ensures var p := "\U{1F600}\U{1F600}\U{1F600}\U{1F600}";
            |p| == 4 && Acceptable(FormData("", "", p, p))
  {
    var p := "\U{1F600}\U{1F600}\U{1F600}\U{1F600}";
    assert p[1..][1..][1..][1..] == [];
  }
}
