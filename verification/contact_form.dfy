/**
  Contact-form validation of the portfolio script: the submit-time check of
  the three fields, the per-field check on blur, and the clearing on focus.
  The DOM is reduced to what `showError` and `clearError` change on a field:
  the text of its error element and the colour of its input's border.
 */
module ContactForm {
  import opened Text
  import opened Email

  datatype Field = NameField | EmailField | MessageField

  /** The raw values of the three inputs, before trimming. */
  datatype Inputs = Inputs(name: string, email: string, message: string) {
    function Get(f: Field): string {
      match f
      case NameField => name
      case EmailField => email
      case MessageField => message
    }
  }

  /** The six error messages the form can show. */
  datatype ErrorMessage =
    | NameMissing | NameTooShort
    | EmailMissing | EmailMalformed
    | MessageMissing | MessageTooShort
  {
    /** The text written into the field's error element. */
    function Wording(): string {
      match this
      case NameMissing => "Please enter your name"
      case NameTooShort => "Name must be at least 2 characters"
      case EmailMissing => "Please enter your email"
      case EmailMalformed => "Please enter a valid email address"
      case MessageMissing => "Please enter your message"
      case MessageTooShort => "Message must be at least 10 characters"
    }

    /** The "Please enter…" messages, shown for an empty field. */
    predicate IsMissing() {
      NameMissing? || EmailMissing? || MessageMissing?
    }
  }

  /** One field's visible error state. `Cleared` is what `clearError` leaves
      (empty text, default border); `Showing(m)` is what `showError` leaves
      (the text of `m`, red border `#ef4444`). */
  datatype FieldUi = Cleared | Showing(message: ErrorMessage)

  datatype FormUi = FormUi(name: FieldUi, email: FieldUi, message: FieldUi) {
    function Get(f: Field): FieldUi {
      match f
      case NameField => name
      case EmailField => email
      case MessageField => message
    }

    /** Replaces one field's state and no other. */
    function Set(f: Field, u: FieldUi): (r: FormUi)
      ensures r.Get(f) == u
      ensures forall g :: g != f ==> r.Get(g) == Get(g)
    {
      match f
      case NameField => this.(name := u)
      case EmailField => this.(email := u)
      case MessageField => this.(message := u)
    }
  }

  const MinNameLength := 2
  const MinMessageLength := 10

  /** `showError`. */
  function ShowError(ui: FormUi, f: Field, m: ErrorMessage): (r: FormUi)
    ensures r.Get(f) == Showing(m)
    ensures forall g :: g != f ==> r.Get(g) == ui.Get(g)
  {
    ui.Set(f, Showing(m))
  }

  /** `clearError`; also the whole of the focus handler. */
  function ClearError(ui: FormUi, f: Field): (r: FormUi)
    ensures r.Get(f) == Cleared
    ensures forall g :: g != f ==> r.Get(g) == ui.Get(g)
  {
    ui.Set(f, Cleared)
  }

  /** The length or format rule a non-empty, trimmed value must meet. */
  predicate Accepts(f: Field, v: string) {
    match f
    case NameField => |v| >= MinNameLength
    case EmailField => IsValidEmail(v)
    case MessageField => |v| >= MinMessageLength
  }

  /** The "Please enter…" message of each field. */
  function MissingMessage(f: Field): (m: ErrorMessage)
    ensures m.IsMissing()
  {
    match f
    case NameField => NameMissing
    case EmailField => EmailMissing
    case MessageField => MessageMissing
  }

  /** The message of each field's length or format rule. */
  function RuleMessage(f: Field): (m: ErrorMessage)
    ensures !m.IsMissing()
  {
    match f
    case NameField => NameTooShort
    case EmailField => EmailMalformed
    case MessageField => MessageTooShort
  }

  /** What submitting must leave on field `f` whose trimmed value is `v`: the
      "Please enter…" message when `v` is empty, nothing when `v` meets the
      field's rule, and the rule's message otherwise. */
  function SubmitState(f: Field, v: string): FieldUi {
    if v == [] then Showing(MissingMessage(f))
    else if Accepts(f, v) then Cleared
    else Showing(RuleMessage(f))
  }

  /** One field's branch of `validateForm` on the trimmed value `v`; only that
      field's state changes. */
  function CheckField(ui: FormUi, f: Field, v: string): (r: (bool, FormUi))
    requires ui.Get(f) == Cleared
    ensures r.0 <==> v != [] && Accepts(f, v)
    ensures r.1.Get(f) == SubmitState(f, v)
    ensures forall g :: g != f ==> r.1.Get(g) == ui.Get(g)
  {
    match f
    case NameField =>
      if v == [] then (false, ShowError(ui, NameField, NameMissing))
      else if |v| < MinNameLength then (false, ShowError(ui, NameField, NameTooShort))
      else (true, ui)
    case EmailField =>
      if v == [] then (false, ShowError(ui, EmailField, EmailMissing))
      else if !IsValidEmail(v) then (false, ShowError(ui, EmailField, EmailMalformed))
      else (true, ui)
    case MessageField =>
      if v == [] then (false, ShowError(ui, MessageField, MessageMissing))
      else if |v| < MinMessageLength then (false, ShowError(ui, MessageField, MessageTooShort))
      else (true, ui)
  }

  /** The verdict of `validateForm` together with the error state it leaves. */
  datatype Verdict = Verdict(valid: bool, ui: FormUi)

  /** The checks of `validateForm` on already-trimmed values: clear all three
      errors, then check name, email and message in turn without stopping at
      the first failure. */
  function CheckAll(ui: FormUi, name: string, email: string, message: string): (r: Verdict)
    ensures r.valid <==>
      |name| >= MinNameLength && email != [] && IsValidEmail(email) && |message| >= MinMessageLength
    ensures r.valid <==> r.ui == FormUi(Cleared, Cleared, Cleared)
    ensures r.ui == FormUi(SubmitState(NameField, name), SubmitState(EmailField, email),
                           SubmitState(MessageField, message))
  {
    var ui0 := ClearError(ClearError(ClearError(ui, NameField), EmailField), MessageField);
    assert ui0 == FormUi(Cleared, Cleared, Cleared);
    var (nameOk, ui1) := CheckField(ui0, NameField, name);
    var (emailOk, ui2) := CheckField(ui1, EmailField, email);
    var (messageOk, ui3) := CheckField(ui2, MessageField, message);
    Verdict(nameOk && emailOk && messageOk, ui3)
  }

  /** `validateForm`: trims the three values and checks them; valid exactly
      when the trimmed name has at least 2 characters, the trimmed e-mail is
      non-empty and well formed, and the trimmed message has at least 10. */
  function ValidateForm(ui: FormUi, inputs: Inputs): (r: Verdict)
    ensures r.valid <==>
      && |Trim(inputs.name)| >= MinNameLength
      && Trim(inputs.email) != [] && IsValidEmail(Trim(inputs.email))
      && |Trim(inputs.message)| >= MinMessageLength
    ensures r.valid <==> r.ui == FormUi(Cleared, Cleared, Cleared)
    ensures forall f :: r.ui.Get(f) == SubmitState(f, Trim(inputs.Get(f)))
  {
    CheckAll(ui, Trim(inputs.name), Trim(inputs.email), Trim(inputs.message))
  }

  /** Errors left by an earlier check have no effect: `validateForm` clears all
      three before it looks at any value. */
  lemma ValidateIgnoresEarlierErrors(ui1: FormUi, ui2: FormUi, inputs: Inputs)
    ensures ValidateForm(ui1, inputs) == ValidateForm(ui2, inputs)
  {
  }

  /** The boundary lengths are accepted: a two-character name and a
      ten-character message pass, one character fewer fails. */
  lemma ValidateAcceptsBoundaries(ui: FormUi)
    ensures ValidateForm(ui, Inputs("Al", "a@b.co", "0123456789")).valid
    ensures !ValidateForm(ui, Inputs("A", "a@b.co", "0123456789")).valid
    ensures !ValidateForm(ui, Inputs("Al", "a@b.co", "012345678")).valid
  {
    ExampleAddress();
    ValidEmailIsTrimmed("a@b.co");
    ExampleValuesUntrimmable();
    ValidateUntrimmable(ui, Inputs("Al", "a@b.co", "0123456789"));
    ValidateUntrimmable(ui, Inputs("A", "a@b.co", "0123456789"));
    ValidateUntrimmable(ui, Inputs("Al", "a@b.co", "012345678"));
  }

  lemma ExampleValuesUntrimmable()
    ensures NoWhitespace("Al") && NoWhitespace("A")
    ensures NoWhitespace("0123456789") && NoWhitespace("012345678")
  {
  }

  /** Inputs without white space are checked as they are. */
  lemma ValidateUntrimmable(ui: FormUi, inputs: Inputs)
    requires NoWhitespace(inputs.name) && NoWhitespace(inputs.email) && NoWhitespace(inputs.message)
    ensures ValidateForm(ui, inputs).valid <==>
      |inputs.name| >= MinNameLength && inputs.email != [] && IsValidEmail(inputs.email)
      && |inputs.message| >= MinMessageLength
  {
  }

  /** The blur handler: trims the blurred field's value, clears that field's
      error, and for a non-empty value reports the length or format error.
      An empty value is never flagged, and other fields are untouched. */
  function Blur(ui: FormUi, f: Field, value: string): (r: FormUi)
    ensures forall g :: g != f ==> r.Get(g) == ui.Get(g)
    ensures r.Get(f) == (if Trim(value) == [] || Accepts(f, Trim(value)) then Cleared else Showing(RuleMessage(f)))
  {
    var v := Trim(value);
    var cleared := ClearError(ui, f);
    match f
    case NameField =>
      if v != [] && |v| < MinNameLength then ShowError(cleared, NameField, NameTooShort) else cleared
    case EmailField =>
      if v != [] && !IsValidEmail(v) then ShowError(cleared, EmailField, EmailMalformed) else cleared
    case MessageField =>
      if v != [] && |v| < MinMessageLength then ShowError(cleared, MessageField, MessageTooShort) else cleared
  }

  /** For a non-empty value, leaving a field shows exactly what submitting the
      form would show for that field, whatever the other fields hold. */
  lemma BlurAgreesWithSubmit(ui: FormUi, inputs: Inputs, f: Field)
    requires Trim(inputs.Get(f)) != []
    ensures Blur(ui, f, inputs.Get(f)).Get(f) == ValidateForm(ui, inputs).ui.Get(f)
  {
  }

  /** The three inputs after `contactForm.reset()`. */
  const EmptyInputs := Inputs("", "", "")

  /** Outcome of `handleFormSubmit`: the validation verdict, whether the success
      banner was shown, and the input values afterwards. */
  datatype Submission = Submission(verdict: Verdict, successShown: bool, inputsAfter: Inputs)

  /** `handleFormSubmit`: on a valid form the success banner appears and the
      form is reset; otherwise the inputs keep their values. */
  function HandleFormSubmit(ui: FormUi, inputs: Inputs): (r: Submission)
    ensures r.verdict == ValidateForm(ui, inputs)
    ensures r.successShown <==> r.verdict.valid
    ensures r.successShown ==> r.inputsAfter == EmptyInputs
    ensures !r.successShown ==> r.inputsAfter == inputs
    ensures r.verdict.valid <==>
      |Trim(inputs.name)| >= MinNameLength && IsValidEmail(Trim(inputs.email))
      && |Trim(inputs.message)| >= MinMessageLength
  {
    var v := ValidateForm(ui, inputs);
    if v.valid then Submission(v, true, EmptyInputs) else Submission(v, false, inputs)
  }
}
