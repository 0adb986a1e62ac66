/**
 * The validation rules of the contact form as functions of the values:
 * what `validateField` (script.js:217-229) decides for one field, and what
 * `validateForm` (script.js:195-215) decides and annotates for a whole
 * submission. The DOM state these decisions act on is in module ContactForm.
 */
module Validation {
  import opened Wrappers
  import opened Text
  import opened Email

  /** The two ways a field can be rejected. */
  datatype FieldError = MissingValue | InvalidEmail

  const RequiredMessage: string := "This field is required"
  const EmailMessage: string := "Please enter a valid email address"

  /** The annotation text shown for each error. */
  function Message(e: FieldError): string {
    match e
    case MissingValue => RequiredMessage
    case InvalidEmail => EmailMessage
  }

  /** The fields validateForm checks, in the order it checks them. */
  const ContactFields: seq<string> := ["name", "email", "subject", "message"]

  /** The blur check of one field: `raw` is the field's value, `required`
      whether the field carries the `required` attribute. The value is
      trimmed before both rules. */
  function CheckField(required: bool, name: string, raw: string): Option<FieldError> {
    var value := Trim(raw);
    if required && value == "" then Some(MissingValue)
    else if name == "email" && value != "" && !IsEmailAddress(value) then Some(InvalidEmail)
    else None
  }

  /** validateField takes exactly one of its three branches, stated against
      the reference definitions (blankness and the e-mail pattern's language). */
  lemma CheckFieldBranches(required: bool, name: string, raw: string)
    ensures CheckField(required, name, raw) == Some(MissingValue) <==> required && Blank(raw)
    ensures CheckField(required, name, raw) == Some(InvalidEmail) <==>
      !(required && Blank(raw)) && name == "email" && !Blank(raw) && !MatchesEmailRegex(Trim(raw))
    ensures CheckField(required, name, raw) == None <==>
      !(required && Blank(raw)) && (name == "email" && !Blank(raw) ==> MatchesEmailRegex(Trim(raw)))
  {
    TrimEmptyIffBlank(raw);
    EmailAddressIffRegex(Trim(raw));
  }

  /** A field that is neither required nor the e-mail field always passes. */
  lemma OptionalPlainFieldPasses(name: string, raw: string)
    requires name != "email"
    ensures CheckField(false, name, raw) == None
  {
  }

  /** The first rule of validateForm's loop: the field is absent from the
      submitted data, or its value is empty after trimming. */
  predicate FieldMissing(data: map<string, string>, f: string) {
    f !in data || Trim(data[f]) == ""
  }

  /** validateForm's e-mail rule: a present, non-empty e-mail value, tested
      against the pattern WITHOUT trimming. */
  predicate EmailRejected(data: map<string, string>) {
    "email" in data && data["email"] != "" && !IsEmailAddress(data["email"])
  }

  /** Field `f` receives an annotation from validateForm. */
  predicate FormFieldFails(data: map<string, string>, f: string) {
    (f in ContactFields && FieldMissing(data, f)) || (f == "email" && EmailRejected(data))
  }

  /** The required-field loop's running verdict after checking `names`. */
  predicate AllFilled(data: map<string, string>, names: seq<string>) {
    names == [] || (AllFilled(data, names[..|names| - 1]) && !FieldMissing(data, names[|names| - 1]))
  }

  /** The annotations after the required-field loop has checked `names`,
      in order: each missing field's annotation is replaced by the required
      message. */
  function RequiredPass(errors: map<string, seq<string>>, data: map<string, string>,
      names: seq<string>): map<string, seq<string>> {
    if names == [] then errors
    else
      var e := RequiredPass(errors, data, names[..|names| - 1]);
      var f := names[|names| - 1];
      if FieldMissing(data, f) then e[f := [RequiredMessage]] else e
  }

  /** The invalid marks after the required-field loop has checked `names`. */
  function RequiredMarks(invalid: map<string, bool>, data: map<string, string>,
      names: seq<string>): map<string, bool> {
    if names == [] then invalid
    else
      var m := RequiredMarks(invalid, data, names[..|names| - 1]);
      var f := names[|names| - 1];
      if FieldMissing(data, f) then m[f := true] else m
  }

  /** validateForm's verdict: the required-field loop found nothing
      missing and the e-mail was not rejected. */
  predicate FormAccepts(data: map<string, string>) {
    AllFilled(data, ContactFields) && !EmailRejected(data)
  }

  /** The annotations after validateForm: the required-field loop, then the
      e-mail message on a rejected e-mail. */
  function FormAnnotations(errors: map<string, seq<string>>,
      data: map<string, string>): map<string, seq<string>> {
    var e := RequiredPass(errors, data, ContactFields);
    if EmailRejected(data) then e["email" := [EmailMessage]] else e
  }

  /** The invalid marks after validateForm. */
  function FormMarks(invalid: map<string, bool>, data: map<string, string>): map<string, bool> {
    var m := RequiredMarks(invalid, data, ContactFields);
    if EmailRejected(data) then m["email" := true] else m
  }

  /** The running verdict holds exactly when no checked field is missing. */
  lemma {:induction false} AllFilledIff(data: map<string, string>, names: seq<string>)
    ensures AllFilled(data, names) <==> forall f :: f in names ==> !FieldMissing(data, f)
    decreases |names|
  {
    if names != [] {
      var init := names[..|names| - 1];
      AllFilledIff(data, init);
      assert names == init + [names[|names| - 1]];
    }
  }

  /** After the required-field loop over `names`, a checked field that is
      missing carries exactly the required message and is marked; every
      other field keeps its annotations and its mark; no field appears or
      disappears when all checked names are already fields. */
  lemma {:induction false} RequiredPassAt(errors: map<string, seq<string>>,
      invalid: map<string, bool>, 
                                         data: map<string, string>, names: seq<string>, f: string)
    requires forall g :: g in names ==> g in errors && g in invalid
    ensures RequiredPass(errors, data, names).Keys == errors.Keys
    ensures RequiredMarks(invalid, data, names).Keys == invalid.Keys
    ensures f in errors ==>
      RequiredPass(errors, data, names)[f] ==
        (if f in names && FieldMissing(data, f) then [RequiredMessage] else errors[f])
    ensures f in invalid ==>
      RequiredMarks(invalid, data, names)[f] ==
        (if f in names && FieldMissing(data, f) then true else invalid[f])
    decreases |names|
  {
    if names != [] {
      var init := names[..|names| - 1];
      var last := names[|names| - 1];
      assert names == init + [last];
      assert last in names;
      RequiredPassAt(errors, invalid, data, init, f);
    }
  }

  /** validateForm accepts exactly when each of the four fields is present
      and not blank, and the untrimmed e-mail is in the pattern's language. */
  lemma FormAcceptsIff(data: map<string, string>)
    ensures FormAccepts(data) <==>
      (forall f :: f in ContactFields ==> f in data && !Blank(data[f]))
      && "email" in data && MatchesEmailRegex(data["email"])
  {
    assert "email" in ContactFields;
    AllFilledIff(data, ContactFields);
    forall f | f in ContactFields
      ensures !FieldMissing(data, f) <==> f in data && !Blank(data[f])
    {
      if f in data { TrimEmptyIffBlank(data[f]); }
    }
    if "email" in data {
      EmailAddressIffRegex(data["email"]);
    }
  }

  /** A form that validateForm accepts passes validateField in every one of
      its fields, whether or not the field is marked required. */
  lemma FormAcceptanceImpliesFieldAcceptance(data: map<string, string>, f: string, required: bool)
    requires FormAccepts(data) && f in ContactFields
    ensures f in data && CheckField(required, f, data[f]) == None
  {
    AllFilledIff(data, ContactFields);
    if f == "email" {
      AddressShape(data["email"]);
    }
  }

  /** "a@b.co" is an accepted address. */
  lemma SampleAddressAccepted()
    ensures IsEmailAddress("a@b.co")
  {
    var s := "a@b.co";
    assert NoWhitespace(s);
    assert IndexOf(s, '@') == Some(1);
    assert s[2..][1..3] == ".c";
  }

  /** The converse fails: the blur check trims the e-mail before testing it
      and the submit check does not, so leading whitespace passes one and
      fails the other. */
  lemma FieldCheckLaxerThanForm()
    ensures CheckField(true, "email", " a@b.co") == None
    ensures !FormAccepts(map["name" := "A", "email" := " a@b.co", "subject" := "S", "message" := "M"])
  {
    LeadingSpaceFailsForm();
    LeadingSpacePassesBlurCheck();
  }

  lemma LeadingSpacePassesBlurCheck()
    ensures CheckField(true, "email", " a@b.co") == None
  {
    var s := " a@b.co";
    assert SkipBlankForward(s, 0) == 1 by {
      assert IsWhitespace(s[0]) && !IsWhitespace(s[1]);
    }
    assert SkipBlankBackward(s, 1, 7) == 7;
    assert Trim(s) == s[1..7] == "a@b.co";
    SampleAddressAccepted();
  }

  lemma LeadingSpaceFailsForm()
    ensures !FormAccepts(map["name" := "A", "email" := " a@b.co", "subject" := "S", "message" := "M"])
  {
    var data := map["name" := "A", "email" := " a@b.co", "subject" := "S", "message" := "M"];
    WhitespaceNeverAddress(" a@b.co", 0);
    assert data["email"] == " a@b.co";
    assert EmailRejected(data);
  }

  /** The per-field invariant of the page: no field ever shows more than
      one `.field-error` annotation. */
  predicate OneAnnotationPerField(errors: map<string, seq<string>>) {
    forall f :: f in errors ==> |errors[f]| <= 1
  }

  /** validateForm only adds or replaces annotations and marks: a failing
      field ends with exactly one annotation (the e-mail message when the
      pattern rejected it, the required message otherwise) and is marked; a
      passing field's annotations and mark are untouched, so an old
      annotation is never removed; no field appears or disappears. */
  lemma FormAnnotationsAt(errors: map<string, seq<string>>, invalid: map<string, bool>,
                          data: map<string, string>, f: string)
    requires forall g :: g in ContactFields ==> g in errors && g in invalid
    ensures FormAnnotations(errors, data).Keys == errors.Keys
    ensures FormMarks(invalid, data).Keys == invalid.Keys
    ensures f in errors ==>
      FormAnnotations(errors, data)[f] ==
        (if f == "email" && EmailRejected(data) then [EmailMessage]
         else if FormFieldFails(data, f) then [RequiredMessage]
         else errors[f])
    ensures f in invalid ==>
      FormMarks(invalid, data)[f] == (FormFieldFails(data, f) || invalid[f])
  {
    assert "email" in ContactFields;
    RequiredPassAt(errors, invalid, data, ContactFields, f);
  }

  /** validateForm keeps at most one annotation per field. */
  lemma FormAnnotationsKeepOnePerField(errors: map<string, seq<string>>, data: map<string, string>)
    requires forall g :: g in ContactFields ==> g in errors
    requires OneAnnotationPerField(errors)
    ensures OneAnnotationPerField(FormAnnotations(errors, data))
  {
    var invalid := map g | g in errors :: false;
    forall f | f in FormAnnotations(errors, data)
      ensures |FormAnnotations(errors, data)[f]| <= 1
    {
      FormAnnotationsAt(errors, invalid, data, f);
    }
  }

  /** An accepted form changes no annotation and no mark. */
  lemma AcceptedFormChangesNothing(errors: map<string, seq<string>>, invalid: map<string, bool>,
      data: map<string, string>)
    requires forall g :: g in ContactFields ==> g in errors && g in invalid
    requires FormAccepts(data)
    ensures FormAnnotations(errors, data) == errors
    ensures FormMarks(invalid, data) == invalid
  {
    AllFilledIff(data, ContactFields);
    FormAnnotationsAt(errors, invalid, data, "email");
    forall f | f in errors ensures FormAnnotations(errors, data)[f] == errors[f] {
      FormAnnotationsAt(errors, invalid, data, f);
    }
    forall f | f in invalid ensures FormMarks(invalid, data)[f] == invalid[f] {
      FormAnnotationsAt(errors, invalid, data, f);
    }
  }

  /** A whitespace-only e-mail fails the required rule first and the
      pattern second; the second message replaces the first. */
  lemma BlankEmailShowsEmailMessage(errors: map<string, seq<string>>, data: map<string, string>)
    requires "email" in errors && "email" in data
    requires data["email"] != "" && Blank(data["email"])
    ensures FieldMissing(data, "email") && EmailRejected(data)
    ensures "email" in FormAnnotations(errors, data) && FormAnnotations(errors, data)["email"] == [EmailMessage]
  {
    var e := data["email"];
    TrimEmptyIffBlank(e);
    WhitespaceNeverAddress(e, 0);
  }

  /** Examples of the blur check on the e-mail field: a well-formed
      address passes; a missing dot after the `@`, a missing `@` and an inner
      space are each rejected by the pattern; an empty value is missing. */
  lemma WellFormedAddressPasses()
    ensures CheckField(true, "email", "a@b.co") == None
  {
    TrimKeepsTrimmed("a@b.co");
    SampleAddressAccepted();
  }

  lemma AddressWithoutDotRejected()
    ensures CheckField(true, "email", "a@b") == Some(InvalidEmail)
  {
    TrimKeepsTrimmed("a@b");
    assert IndexOf("a@b", '@') == Some(1);
  }

  lemma AddressWithoutAtRejected()
    ensures CheckField(true, "email", "ab.com") == Some(InvalidEmail)
  {
    TrimKeepsTrimmed("ab.com");
    assert IndexOf("ab.com", '@') == None;
  }

  lemma AddressWithSpaceRejected()
    ensures CheckField(true, "email", "a @b.com") == Some(InvalidEmail)
  {
    WhitespaceNeverAddress("a @b.com", 1);
    TrimKeepsTrimmed("a @b.com");
  }

  lemma EmptyAddressMissing()
    ensures CheckField(true, "email", "") == Some(MissingValue)
  {
  }

  /** A fully and correctly filled form is accepted. */
  lemma FilledFormAccepted()
    ensures FormAccepts(map["name" := "Alice", "email" := "alice@example.com", "subject" := "Hi", "message" := "Hello"])
  {
    var data := map["name" := "Alice", "email" := "alice@example.com", "subject" := "Hi", "message" := "Hello"];
    FilledFormData(data);
    AcceptedWhenFilled(data);
  }

  lemma FilledFormData(data: map<string, string>)
    requires data == map["name" := "Alice", "email" := "alice@example.com", "subject" := "Hi", "message" := "Hello"]
    ensures "name" in data && "email" in data && "subject" in data && "message" in data
    ensures !Blank(data["name"]) && !Blank(data["email"])
    ensures !Blank(data["subject"]) && !Blank(data["message"])
    ensures IsEmailAddress(data["email"])
  {
    assert !IsWhitespace(data["name"][0]) && !IsWhitespace(data["email"][0]);
    assert !IsWhitespace(data["subject"][0]) && !IsWhitespace(data["message"][0]);
    SampleFullAddressAccepted();
  }

  lemma AcceptedWhenFilled(data: map<string, string>)
    requires "name" in data && "email" in data && "subject" in data && "message" in data
    requires !Blank(data["name"]) && !Blank(data["email"])
    requires !Blank(data["subject"]) && !Blank(data["message"])
    requires IsEmailAddress(data["email"])
    ensures FormAccepts(data)
  {
    FilledNotMissing(data);
    AllFilledIff(data, ContactFields);
  }

  /** The four values being non-blank, none of them is missing. */
  lemma FilledNotMissing(data: map<string, string>)
    requires "name" in data && "email" in data && "subject" in data && "message" in data
    requires !Blank(data["name"]) && !Blank(data["email"])
    requires !Blank(data["subject"]) && !Blank(data["message"])
    ensures forall f :: f in ContactFields ==> !FieldMissing(data, f)
  {
    TrimEmptyIffBlank(data["name"]);
    TrimEmptyIffBlank(data["email"]);
    TrimEmptyIffBlank(data["subject"]);
    TrimEmptyIffBlank(data["message"]);
  }

  /** "alice@example.com" is an accepted address. */
  lemma SampleFullAddressAccepted()
    ensures IsEmailAddress("alice@example.com")
  {
    var e := "alice@example.com";
    assert e[..5] == "alice" && e[5] == '@' && e[6..13] == "example" && e[13] == '.' && e[14..] == "com";
    assert IsAtom("alice") && IsAtom("example") && IsAtom("com");
    RegexMatchIsAddress(e);
  }

  /** A form whose only fault is an e-mail without `@` is rejected, and the
      only annotation it gains is the e-mail message under the e-mail field. */
  lemma MalformedEmailOnlyAnnotatesEmail(errors: map<string, seq<string>>,
      invalid: map<string, bool>, f: string)
    requires forall g :: g in ContactFields ==> g in errors && g in invalid
    requires f in errors
    ensures var data := map["name" := "Alice", "email" := "not-an-email", "subject" := "Hi", "message" := "Hello"];
      && !FormAccepts(data) && f in FormAnnotations(errors, data)
      && FormAnnotations(errors, data)[f] == (if f == "email" then [EmailMessage] else errors[f])
  {
    var data := map["name" := "Alice", "email" := "not-an-email", "subject" := "Hi", "message" := "Hello"];
    MalformedEmailData(data);
    OnlyEmailRejected(errors, invalid, data, f);
  }

  lemma MalformedEmailData(data: map<string, string>)
    requires data == map["name" := "Alice", "email" := "not-an-email", "subject" := "Hi", "message" := "Hello"]
    ensures "name" in data && "email" in data && "subject" in data && "message" in data
    ensures !Blank(data["name"]) && !Blank(data["email"])
    ensures !Blank(data["subject"]) && !Blank(data["message"])
    ensures !IsEmailAddress(data["email"])
  {
    assert !IsWhitespace(data["name"][0]) && !IsWhitespace(data["email"][0]);
    assert !IsWhitespace(data["subject"][0]) && !IsWhitespace(data["message"][0]);
    NoAtRejected();
  }

  /** "not-an-email" has no `@` and is rejected. */
  lemma NoAtRejected()
    ensures !IsEmailAddress("not-an-email")
  {
    var s := "not-an-email";
    assert forall k :: 0 <= k < |s| ==> s[k] != '@';
    NoAtNeverAddress(s);
  }

  lemma OnlyEmailRejected(errors: map<string, seq<string>>, invalid: map<string, bool>,
      data: map<string, string>, f: string)
    requires forall g :: g in ContactFields ==> g in errors && g in invalid
    requires f in errors
    requires "name" in data && "email" in data && "subject" in data && "message" in data
    requires !Blank(data["name"]) && !Blank(data["email"])
    requires !Blank(data["subject"]) && !Blank(data["message"])
    requires !IsEmailAddress(data["email"])
    ensures !FormAccepts(data) && f in FormAnnotations(errors, data)
    ensures FormAnnotations(errors, data)[f] == (if f == "email" then [EmailMessage] else errors[f])
  {
    FilledNotMissing(data);
    FormAnnotationsAt(errors, invalid, data, f);
  }

  /** The submission gate's invariant, stated for the four checked fields:
      a field of the four shows an annotation only while `data` fails the
      submit check on it. */
  predicate AnnotationsCurrent(errors: map<string, seq<string>>, data: map<string, string>) {
    forall f :: f in ContactFields && f in errors && errors[f] != [] ==> FormFieldFails(data, f)
  }

  /** A value the blur check rejects is also rejected by the submit check,
      whether or not the field is marked required: blank values are missing,
      and a trimmed e-mail the pattern rejects is rejected untrimmed too. */
  lemma BlurFailureIsSubmitFailure(data: map<string, string>, f: string, required: bool)
    requires f in ContactFields && f in data
    requires CheckField(required, f, data[f]).Some?
    ensures FormFieldFails(data, f)
  {
    var v := data[f];
    if Trim(v) != "" && f == "email" && IsEmailAddress(v) {
      AddressShape(v);
    }
  }

  /** validateForm keeps the gate's invariant: it only gives annotations to
      failing fields, and keeps the old ones, which were current. */
  lemma FormAnnotationsKeepCurrent(errors: map<string, seq<string>>, data: map<string, string>)
    requires forall g :: g in ContactFields ==> g in errors
    requires AnnotationsCurrent(errors, data)
    ensures AnnotationsCurrent(FormAnnotations(errors, data), data)
  {
    var invalid := map g | g in errors :: false;
    forall f | f in ContactFields && f in FormAnnotations(errors, data)
                 && FormAnnotations(errors, data)[f] != []
      ensures FormFieldFails(data, f)
    {
      FormAnnotationsAt(errors, invalid, data, f);
    }
  }

  /** Under the gate's invariant, a form the submit check accepts shows no
      annotation on any of the four fields. */
  lemma AcceptedFormHasNoAnnotations(errors: map<string, seq<string>>, data: map<string, string>)
    requires AnnotationsCurrent(errors, data) && FormAccepts(data)
    ensures forall f :: f in ContactFields && f in errors ==> errors[f] == []
  {
    AllFilledIff(data, ContactFields);
  }

  /** Hence an accepted submission leaves the four fields unannotated. */
  lemma AcceptedFormLeavesNoAnnotations(errors: map<string, seq<string>>, data: map<string, string>)
    requires forall g :: g in ContactFields ==> g in errors
    requires AnnotationsCurrent(errors, data) && FormAccepts(data)
    ensures FormAnnotations(errors, data) == errors
    ensures forall f :: f in ContactFields ==> errors[f] == []
  {
    var invalid := map g | g in errors :: false;
    AcceptedFormChangesNothing(errors, invalid, data);
    AcceptedFormHasNoAnnotations(errors, data);
  }

  /** The invariant covers only the four checked fields: a blank required
      field outside them gets the required message on blur, and the submit
      check ignores it. */
  lemma OtherFieldFailureIgnoredBySubmit(data: map<string, string>, f: string)
    requires f !in ContactFields && f in data && Blank(data[f])
    ensures CheckField(true, f, data[f]) == Some(MissingValue)
    ensures !FormFieldFails(data, f)
  {
    TrimEmptyIffBlank(data[f]);
  }
}
