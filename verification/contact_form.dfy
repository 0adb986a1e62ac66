/**
 * The contact form as the page holds it: the fields' values, the error
 * annotations under each field, the invalid-border mark on each field, the
 * submit button's text and disabled flag, the completion that the
 * simulated network delay schedules, and the notifications shown.
 *
 * Each field's `.form-group` is modelled by the list of `.field-error`
 * elements it contains (the text of each), so "at most one annotation per
 * field" is an invariant the methods keep, not a consequence of the
 * representation. The 2000 ms `setTimeout` of handleFormSubmission is the
 * separate step Complete, which the event loop may run at any later time.
 */
module ContactForm {
  import opened Wrappers
  import opened Text
  import opened Validation

  const SendingText: string := "Sending..."
  const SuccessMessage: string := "Message sent successfully! I'll get back to you soon."

  /** A notification shown to the visitor: its text and its kind. */
  datatype Notification = Notification(message: string, kind: string)

  /** The annotations a blur check leaves under its field. */
  function AnnotationFor(verdict: Option<FieldError>): seq<string> {
    match verdict
    case None => []
    case Some(e) => [Message(e)]
  }

  class Form {
    /** The names of the form's controls, and which carry `required`. */
    const fields: set<string>
    const required: set<string>
    /** What `form.reset()` restores each control to. */
    const defaults: map<string, string>

    var values: map<string, string>
    var errors: map<string, seq<string>>
    var invalid: map<string, bool>

    var buttonText: string
    var disabled: bool
    /** The scheduled completion, holding the button text it will restore. */
    var pending: Option<string>
    var notifications: seq<Notification>

    ghost predicate Valid()
      reads this
    {
      && defaults.Keys == fields && values.Keys == fields
      && errors.Keys == fields && invalid.Keys == fields
      && (forall f :: f in ContactFields ==> f in fields)
      && OneAnnotationPerField(errors)
      && (disabled <==> pending.Some?)
      && (pending.Some? ==> buttonText == SendingText)
    }

    /** The rendered page: every control at its default value, no
        annotation, no mark, the button enabled with its text. */
    constructor (defaults: map<string, string>, required: set<string>, buttonText: string)
      requires forall f :: f in ContactFields ==> f in defaults
      ensures Valid()
      ensures this.fields == defaults.Keys && this.required == required && this.defaults == defaults
      ensures values == defaults && this.buttonText == buttonText && !disabled && notifications == []
      ensures forall f :: f in errors ==> errors[f] == [] && !invalid[f]
      ensures AnnotationsCurrent(errors, values)
    {
      this.fields := defaults.Keys;
      this.required := required;
      this.defaults := defaults;
      values := defaults;
      errors := map f | f in defaults.Keys :: [];
      invalid := map f | f in defaults.Keys :: false;
      this.buttonText := buttonText;
      disabled := false;
      pending := None;
      notifications := [];
    }

    /** showFieldError: remove the field's existing annotation, append one
        with `message`, mark the border. Only that field changes. */
    method ShowFieldError(name: string, message: string)
      requires Valid() && name in fields
      modifies this`errors, this`invalid
      ensures Valid()
      ensures errors == old(errors)[name := [message]]
      ensures invalid == old(invalid)[name := true]
    {
      var group := errors[name];
      assert |group| <= 1;
      if group != [] {
        group := group[1..];
      }
      group := group + [message];
      assert group == [message];
      errors := errors[name := group];
      invalid := invalid[name := true];
    }

    /** clearFieldError: remove the field's annotation if there is one and
        clear the border. Only that field changes. */
    method ClearFieldError(name: string)
      requires Valid() && name in fields
      modifies this`errors, this`invalid
      ensures Valid()
      ensures errors == old(errors)[name := []]
      ensures invalid == old(invalid)[name := false]
      ensures old(AnnotationsCurrent(errors, values)) ==> AnnotationsCurrent(errors, values)
    {
      var group := errors[name];
      if group != [] {
        group := group[1..];
      }
      errors := errors[name := group];
      invalid := invalid[name := false];
    }

    /** An `input` event: the visitor edits the field, and its annotation
        and mark are cleared whether or not the new value is valid. */
    method Input(name: string, value: string)
      requires Valid() && name in fields
      modifies this`values, this`errors, this`invalid
      ensures Valid()
      ensures values == old(values)[name := value]
      ensures errors == old(errors)[name := []]
      ensures invalid == old(invalid)[name := false]
      ensures old(AnnotationsCurrent(errors, values)) ==> AnnotationsCurrent(errors, values)
    {
      values := values[name := value];
      ClearFieldError(name);
    }

    /** validateField, run on `blur`: the field gets the annotation of its
        blur check, or none, and is marked exactly when the check fails. */
    method ValidateField(name: string)
      requires Valid() && name in fields
      modifies this`errors, this`invalid
      ensures Valid()
      ensures errors ==
        old(errors)[name := AnnotationFor(CheckField(name in required, name, values[name]))]
      ensures invalid == old(invalid)[name := CheckField(name in required, name, values[name]).Some?]
      ensures old(AnnotationsCurrent(errors, values)) ==> AnnotationsCurrent(errors, values)
    {
      if name in ContactFields && CheckField(name in required, name, values[name]).Some? {
        BlurFailureIsSubmitFailure(values, name, name in required);
      }
      var value := Trim(values[name]);
      if name in required && value == "" {
        ShowFieldError(name, RequiredMessage);
      } else if name == "email" && value != "" && !Email.IsEmailAddress(value) {
        ShowFieldError(name, EmailMessage);
      } else {
        ClearFieldError(name);
      }
    }

    /** validateForm: checks the four fields in order, then the e-mail
        pattern, annotating every failure; returns whether nothing failed. */
    method ValidateForm(data: map<string, string>) returns (isValid: bool)
      requires Valid()
      modifies this`errors, this`invalid
      ensures Valid()
      ensures isValid == FormAccepts(data)
      ensures errors == FormAnnotations(old(errors), data)
      ensures invalid == FormMarks(old(invalid), data)
    {
      isValid := true;
      for k := 0 to |ContactFields|
        invariant Valid()
        invariant isValid == AllFilled(data, ContactFields[..k])
        invariant errors == RequiredPass(old(errors), data, ContactFields[..k])
        invariant invalid == RequiredMarks(old(invalid), data, ContactFields[..k])
      {
        var f := ContactFields[k];
        assert ContactFields[..k + 1][..k] == ContactFields[..k];
        if f !in data || Trim(data[f]) == "" {
          ShowFieldError(f, RequiredMessage);
          isValid := false;
        }
      }
      assert ContactFields[..|ContactFields|] == ContactFields;
      if "email" in data && data["email"] != "" && !Email.IsEmailAddress(data["email"]) {
        ShowFieldError("email", EmailMessage);
        isValid := false;
      }
    }

    /** handleFormSubmission: validate the current values; on failure stop
        there, on success show the busy text, disable the button and
        schedule the completion with the button text to restore. A disabled
        submit button cannot submit the form, so the handler runs only while
        the button is enabled. While every annotation on the four checked
        fields is current, the form moves to sending only with none of them
        annotated. */
    method Submit()
      requires Valid() && !disabled
      modifies this`errors, this`invalid, this`buttonText, this`disabled, this`pending
      ensures Valid()
      ensures errors == FormAnnotations(old(errors), old(values))
      ensures invalid == FormMarks(old(invalid), old(values))
      ensures FormAccepts(old(values)) ==>
        disabled && buttonText == SendingText && pending == Some(old(buttonText))
      ensures !FormAccepts(old(values)) ==>
        !disabled && buttonText == old(buttonText) && pending == None
      ensures values == old(values) && notifications == old(notifications)
      ensures old(AnnotationsCurrent(errors, values)) ==> AnnotationsCurrent(errors, values)
      ensures old(AnnotationsCurrent(errors, values)) && disabled ==>
        forall f :: f in ContactFields ==> errors[f] == []
    {
      ghost var before := errors;
      var ok := ValidateForm(values);
      if AnnotationsCurrent(before, values) {
        FormAnnotationsKeepCurrent(before, values);
        if ok {
          AcceptedFormLeavesNoAnnotations(before, values);
        }
      }
      if !ok {
        return;
      }
      var originalText := buttonText;
      buttonText := SendingText;
      disabled := true;
      pending := Some(originalText);
    }

    /** The timer firing: one success notification, every control reset to
        its default, the original text back and the button enabled. The
        annotations and marks are not touched by `form.reset()`. */
    method Complete()
      requires Valid() && pending.Some?
      modifies this`values, this`buttonText, this`disabled, this`pending, this`notifications
      ensures Valid()
      ensures notifications == old(notifications) + [Notification(SuccessMessage, "success")]
      ensures values == defaults
      ensures buttonText == old(pending).value && !disabled && pending == None
      ensures errors == old(errors) && invalid == old(invalid)
      ensures (forall f :: f in ContactFields ==> FieldMissing(defaults, f)) ==>
        AnnotationsCurrent(errors, values)
    {
      notifications := notifications + [Notification(SuccessMessage, "success")];
      values := defaults;
      buttonText := pending.value;
      disabled := false;
      pending := None;
    }
  }
}
