/**
  The submit handler of the second script's contact form: a presence check of
  four fields followed by the e-mail pattern, with no trimming at all.
 */
module PromptContact {
  import opened Wrappers
  import opened Text
  import opened Email
  import ContactForm

  /** A `FormData` entry as `formData.get` returns it: `None` when the form has
      no such field (`null`). */
  type Entry = Option<string>

  /** JavaScript's `!value` on an entry: true for `null` and for "". */
  predicate Blank(e: Entry) {
    e.None? || e.value == []
  }

  /** The four entries of the form. */
  datatype FormEntries = FormEntries(name: Entry, email: Entry, subject: Entry, message: Entry)

  /** What the handler does: reject with one notification, or start the
      simulated send (button disabled, success notification after a delay). */
  datatype Outcome = MissingFields | InvalidEmail | Sending

  /** The kind of notification box, which decides its icon and colour. */
  datatype NoticeKind = Error | Success

  /** The notification each outcome ends with; `Sending` shows its success
      notification once the simulated request completes. */
  function Notice(o: Outcome): (string, NoticeKind) {
    match o
    case MissingFields => ("Please fill in all fields", Error)
    case InvalidEmail => ("Please enter a valid email address", Error)
    case Sending => ("Message sent successfully!", Success)
  }

  predicate AnyBlank(f: FormEntries) {
    Blank(f.name) || Blank(f.email) || Blank(f.subject) || Blank(f.message)
  }

  /** The submit handler: the presence check runs first and masks the e-mail
      check; a present e-mail that fails the pattern is rejected; otherwise
      the form is sent. */
  function Submit(f: FormEntries): (r: Outcome)
    ensures r == MissingFields <==> AnyBlank(f)
    ensures r == InvalidEmail <==> !AnyBlank(f) && !IsValidEmail(f.email.value)
    ensures r == Sending <==> !AnyBlank(f) && IsValidEmail(f.email.value)
  {
    if Blank(f.name) || Blank(f.email) || Blank(f.subject) || Blank(f.message) then MissingFields
    else if !IsValidEmail(f.email.value) then InvalidEmail
    else Sending
  }

  /** No trimming: fields of white space alone pass the presence check, and with
      a well-formed address the form is sent. */
  lemma WhitespaceFieldsAreSent()
    ensures Submit(FormEntries(Some(" "), Some("a@b.co"), Some(" "), Some("\t"))) == Sending
  {
    ExampleAddress();
  }

  /** An empty e-mail is reported as a missing field, never as a malformed one,
      and so is a missing entry. */
  lemma EmptyEmailIsMissing(f: FormEntries)
    requires Blank(f.email)
    ensures Submit(f) == MissingFields
  {
  }

  /** Whatever this form sends, the other script's e-mail check accepts too:
      a well-formed address has nothing for `trim` to remove. */
  lemma SentEmailPassesPortfolioCheck(f: FormEntries)
    requires Submit(f) == Sending
    ensures var e := Trim(f.email.value); e != [] && IsValidEmail(e)
    ensures ContactForm.Accepts(ContactForm.EmailField, Trim(f.email.value))
  {
    ValidEmailIsTrimmed(f.email.value);
  }

  /** The converse fails: the portfolio form trims, so an address with a
      trailing space passes there and is rejected here. */
  lemma PaddedEmailOnlyPassesPortfolio()
    ensures IsValidEmail(Trim("a@b.co "))
    ensures Submit(FormEntries(Some("Al"), Some("a@b.co "), Some("Hi"), Some("Hello"))) == InvalidEmail
  {
    ExampleAddress();
    var s := "a@b.co ";
    assert IsWhitespace(s[|s| - 1]);
    assert s[..|s| - 1] == "a@b.co";
    assert SkipLeading(s, 0) == 0;
    assert SkipTrailing(s, 0, |s|) == |s| - 1;
    assert !NoWhitespace(s);
  }
}
