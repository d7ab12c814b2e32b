/**
 * The contact page: validation of the four fields (trimmed lengths, and the
 * e-mail pattern on the untrimmed address), and the submit sequence
 * "sending", "sent", "reset" driven by two timers.
 */
module Contact {
  import opened Types
  import Text
  import Auth

  /** The keys of the page's `errors` record. */
  datatype ContactField = Name | Email | Subject | Message

  const NameRequired := "El nombre es requerido"
  const NameTooShort := "El nombre debe tener al menos 2 caracteres"
  const SubjectRequired := "El asunto es requerido"
  const SubjectTooShort := "El asunto debe tener al menos 5 caracteres"
  const MessageRequired := "El mensaje es requerido"
  const MessageTooShort := "El mensaje debe tener al menos 10 caracteres"

  /** A text field checked on its trimmed value: required when blank, too short under `min` characters. */
  function LengthCheck(value: string, min: nat, required: string, tooShort: string): (r: Option<string>)
    requires min >= 1
    ensures r.None? <==> |Text.Trim(value)| >= min
    ensures r == Some(required) || r == Some(tooShort) || r == None
    ensures Text.Trim(value) == "" ==> r == Some(required)
    ensures Text.Trim(value) != "" && |Text.Trim(value)| < min ==> r == Some(tooShort)
  {
    var t := Text.Trim(value);
    if t == [] then Some(required)
    else if |t| < min then Some(tooShort)
    else None
  }

  /** The e-mail is blank only when nothing but white space remains; the pattern is tried on the untrimmed text. */
  function ContactEmailCheck(email: string): Option<string> {
    EmailMessage(Text.Trim(email) == [], Auth.ValidateEmail(email))
  }

  /** The outcome of the e-mail's two tests: "required" when blank, "invalid" when the pattern fails. */
  function EmailMessage(blank: bool, valid: bool): Option<string> {
    if blank then Some(Auth.EmailRequired)
    else if !valid then Some(Auth.EmailInvalid)
    else None
  }

  datatype Messages = Messages(name: Option<string>, email: Option<string>, subject: Option<string>, message: Option<string>)

  function MessageFor(ms: Messages, k: ContactField): Option<string> {
    match k
    case Name => ms.name
    case Email => ms.email
    case Subject => ms.subject
    case Message => ms.message
  }

  function ErrorMap(ms: Messages): map<ContactField, string> {
    map k | k in {Name, Email, Subject, Message} && MessageFor(ms, k).Some? :: MessageFor(ms, k).value
  }

  /** A key is in the record exactly when its check gave a message, and that message is its value. */
  lemma ErrorMapAt(ms: Messages, k: ContactField)
    ensures k in ErrorMap(ms) <==> MessageFor(ms, k).Some?
    ensures k in ErrorMap(ms) ==> ErrorMap(ms)[k] == MessageFor(ms, k).value
  {
  }

  /** The record is empty exactly when no check gave a message. */
  lemma ErrorMapEmpty(ms: Messages)
    ensures ErrorMap(ms) == map[] <==>
      ms.name.None? && ms.email.None? && ms.subject.None? && ms.message.None?
  {
    if ms.name.Some? {
      ErrorMapAt(ms, Name);
    } else if ms.email.Some? {
      ErrorMapAt(ms, Email);
    } else if ms.subject.Some? {
      ErrorMapAt(ms, Subject);
    } else if ms.message.Some? {
      ErrorMapAt(ms, Message);
    }
  }

  /** Recording the four checks one after the other builds the error record. */
  lemma ErrorMapSteps(ms: Messages)
    ensures Put(Put(Put(Put(map[], Name, ms.name), Email, ms.email), Subject, ms.subject), Message, ms.message)
         == ErrorMap(ms)
  {
  }

  function FormMessages(f: ContactForm): Messages {
    Messages(
      LengthCheck(f.name, 2, NameRequired, NameTooShort),
      ContactEmailCheck(f.email),
      LengthCheck(f.subject, 5, SubjectRequired, SubjectTooShort),
      LengthCheck(f.message, 10, MessageRequired, MessageTooShort))
  }

  /** The error record `validateForm` builds. */
  function ContactErrors(f: ContactForm): map<ContactField, string> {
    ErrorMap(FormMessages(f))
  }

  /**
   * Field by field: an error exactly when the trimmed value is shorter than
   * the field's minimum (for the e-mail, blank or not matching the pattern),
   * with the "required" message for a blank value and the other one otherwise.
   */
  lemma ContactErrorsAt(f: ContactForm)
    ensures var r := ContactErrors(f);
      && (Name in r <==> |Text.Trim(f.name)| < 2)
      && (Name in r ==> r[Name] == (if Text.Trim(f.name) == "" then NameRequired else NameTooShort))
      && (Email in r <==> Text.Trim(f.email) == "" || !Auth.ValidateEmail(f.email))
      && (Email in r ==> r[Email] == (if Text.Trim(f.email) == "" then Auth.EmailRequired else Auth.EmailInvalid))
      && (Subject in r <==> |Text.Trim(f.subject)| < 5)
      && (Subject in r ==> r[Subject] == (if Text.Trim(f.subject) == "" then SubjectRequired else SubjectTooShort))
      && (Message in r <==> |Text.Trim(f.message)| < 10)
      && (Message in r ==> r[Message] == (if Text.Trim(f.message) == "" then MessageRequired else MessageTooShort))
  {
    var ms := FormMessages(f);
    ErrorMapAt(ms, Name);
    ErrorMapAt(ms, Email);
    ErrorMapAt(ms, Subject);
    ErrorMapAt(ms, Message);
  }

  /** The form is accepted exactly when every trimmed length is reached and the untrimmed address matches. */
  lemma ContactAcceptsExactly(f: ContactForm)
    ensures ContactErrors(f) == map[] <==>
      |Text.Trim(f.name)| >= 2 && Auth.ValidateEmail(f.email)
      && |Text.Trim(f.subject)| >= 5 && |Text.Trim(f.message)| >= 10
  {
    ErrorMapEmpty(FormMessages(f));
    if Auth.ValidateEmail(f.email) {
      ValidEmailTrimsToItself(f.email);
    }
  }

  /** A valid address has no white space, so trimming leaves it as it is (and non-empty). */
  lemma ValidEmailTrimsToItself(email: string)
    requires Auth.ValidateEmail(email)
    ensures Text.Trim(email) == email && email != ""
  {
    Auth.ValidateEmailShape(email);
    Text.TrimNoSpace(email);
  }

  /** An address with white space at either end is rejected: the pattern sees the untrimmed text. */
  lemma PaddedEmailRejected(email: string)
    requires |email| > 0 && (Text.IsSpace(email[0]) || Text.IsSpace(email[|email| - 1]))
    ensures !Auth.ValidateEmail(email)
  {
    if Auth.ValidateEmail(email) {
      Auth.ValidateEmailShape(email);
    }
  }

  /** A text field's `if / else if` block: its message, if any, recorded in `m`. */
  method AddLengthError(m: map<ContactField, string>, key: ContactField, value: string, min: nat,
                        required: string, tooShort: string) returns (r: map<ContactField, string>)
    requires min >= 1
    ensures r == Put(m, key, LengthCheck(value, min, required, tooShort))
  {
    r := m;
    var t := Text.Trim(value);
    if t == [] {
      r := r[key := required];
    } else if |t| < min {
      r := r[key := tooShort];
    }
  }

  /** The e-mail's `if / else if` block, on the outcomes of its two tests. */
  method AddEmailError(m: map<ContactField, string>, blank: bool, valid: bool) returns (r: map<ContactField, string>)
    ensures r == Put(m, Email, EmailMessage(blank, valid))
  {
    r := m;
    if blank {
      r := r[Email := Auth.EmailRequired];
    } else if !valid {
      r := r[Email := Auth.EmailInvalid];
    }
  }

  /** The local `newErrors` of `validateForm`, filled one field at a time. */
  method CollectErrors(f: ContactForm) returns (newErrors: map<ContactField, string>)
    ensures newErrors == ContactErrors(f)
  {
    newErrors := map[];
    newErrors := AddLengthError(newErrors, Name, f.name, 2, NameRequired, NameTooShort);
    newErrors := AddEmailError(newErrors, Text.Trim(f.email) == [], Auth.ValidateEmail(f.email));
    newErrors := AddLengthError(newErrors, Subject, f.subject, 5, SubjectRequired, SubjectTooShort);
    newErrors := AddLengthError(newErrors, Message, f.message, 10, MessageRequired, MessageTooShort);
    ErrorMapSteps(FormMessages(f));
  }

  function SetField(f: ContactForm, field: ContactField, value: string): (r: ContactForm)
    ensures field == Name ==> r == f.(name := value)
    ensures field == Email ==> r == f.(email := value)
    ensures field == Subject ==> r == f.(subject := value)
    ensures field == Message ==> r == f.(message := value)
  {
    match field
    case Name => f.(name := value)
    case Email => f.(email := value)
    case Subject => f.(subject := value)
    case Message => f.(message := value)
  }

  /** `errors[field]` is truthy: present and not the empty string. */
  predicate HasError(errors: map<ContactField, string>, field: ContactField) {
    field in errors && errors[field] != ""
  }

  class ContactPage {
    var formData: ContactForm
    var errors: map<ContactField, string>
    var isSubmitting: bool
    var isSubmitted: bool

    /** The page is never sending and showing the confirmation at once. */
    predicate Valid()
      reads this
    {
      !(isSubmitting && isSubmitted)
    }

    constructor ()
      ensures formData == EmptyContactForm && errors == map[] && !isSubmitting && !isSubmitted
      ensures Valid()
    {
      formData := EmptyContactForm;
      errors := map[];
      isSubmitting := false;
      isSubmitted := false;
    }

    /** `validateForm`: the errors are replaced as a whole; the result says whether there are none. */
    method ValidateForm() returns (valid: bool)
      modifies this`errors
      ensures errors == ContactErrors(formData)
      ensures valid <==> errors == map[]
    {
      var newErrors := CollectErrors(formData);
      errors := newErrors;
      valid := |newErrors| == 0;
    }

    /**
     * `handleSubmit`, up to the simulated request: the form is on screen and the
     * button enabled. A failing form only changes the errors; a passing one
     * starts sending.
     */
    method HandleSubmit()
      requires Valid() && !isSubmitting && !isSubmitted
      modifies this`errors, this`isSubmitting
      ensures Valid()
      ensures errors == ContactErrors(formData)
      ensures isSubmitting <==> errors == map[]
    {
      var valid := ValidateForm();
      if !valid {
        return;
      }
      isSubmitting := true;
    }

    /** The two-second request delay ends: sending stops and the confirmation shows. */
    method ApiDelayElapsed()
      requires Valid() && isSubmitting
      modifies this`isSubmitting, this`isSubmitted
      ensures Valid() && !isSubmitting && isSubmitted
    {
      isSubmitting := false;
      isSubmitted := true;
    }

    /** The three-second confirmation delay ends: all four fields are cleared and the form returns. */
    method ResetDelayElapsed()
      requires Valid() && isSubmitted
      modifies this`formData, this`isSubmitted
      ensures Valid() && formData == EmptyContactForm && !isSubmitted
    {
      formData := EmptyContactForm;
      isSubmitted := false;
    }

    /**
     * `handleInputChange`, reachable only while the inputs are shown and
     * enabled: one field takes the new value, and its error is blanked when it
     * was showing.
     */
    method HandleInputChange(field: ContactField, value: string)
      requires Valid() && !isSubmitting && !isSubmitted
      modifies this`formData, this`errors
      ensures Valid()
      ensures formData == SetField(old(formData), field, value)
      ensures errors == if HasError(old(errors), field) then old(errors)[field := ""] else old(errors)
    {
      formData := SetField(formData, field, value);
      if HasError(errors, field) {
        errors := errors[field := ""];
      }
    }
  }

  /** A change to one field leaves the other three as they were. */
  lemma SetFieldOthers(f: ContactForm, field: ContactField, value: string)
    ensures field != Name ==> SetField(f, field, value).name == f.name
    ensures field != Email ==> SetField(f, field, value).email == f.email
    ensures field != Subject ==> SetField(f, field, value).subject == f.subject
    ensures field != Message ==> SetField(f, field, value).message == f.message
  {
  }
}
