# Portfolio page behaviour in Dafny

A model of the behaviour of a one-page portfolio site's `script.js`, with
proofs about it. It covers:

- the contact form: the blur check of a single field (`validateField`), the
  submit check of the whole form (`validateForm`), the error annotations
  placed under fields (`showFieldError`, `clearFieldError`), and the
  submission gate (`handleFormSubmission`) with its busy button and its
  simulated completion;
- the portfolio filter buttons;
- the navigation link that is highlighted for the section being read;
- the mobile menu toggle and the two scroll thresholds of the page chrome.

Modules, one file each:

- `Wrappers` (wrappers.dfy): `Option`.
- `Text` (text.dfy): JavaScript whitespace, `trim`, and the first index of a
  character. Whitespace is a fixed set of code points. It is the set that
  both `\s` and `String.prototype.trim` use: TAB, LF, VT, FF, CR, SPACE,
  U+00A0, U+1680, U+2000–U+200A, U+2028, U+2029, U+202F, U+205F, U+3000 and
  U+FEFF.
- `Email` (email.dfy): the address pattern `^[^\s@]+@[^\s@]+\.[^\s@]+$`,
  written two ways:
  - a ghost reference predicate that says directly which strings the pattern
    matches;
  - an executable test that scans for the `@`.

  The two are proved equal.
- `Validation` (validation.dfy): the decisions of both checks as functions of
  the values. A submission is also specified by the annotations and marks it
  leaves behind, stated as functions that follow the source's loop field by
  field, together with their pointwise meaning.
- `ContactForm` (contact_form.dfy): class `Form`. It holds the form's state:
  - each field's value;
  - the `.field-error` texts under each field;
  - each field's invalid-border mark;
  - the submit button's text and disabled flag;
  - the scheduled completion;
  - the notifications shown.

  Its methods are the event handlers. The class invariant says every field
  has at most one annotation, and the button is disabled exactly while a
  completion is pending.
- `Portfolio` (portfolio.dfy): the filter click over the arrays of button
  states and item displays.
- `NavHighlight` (nav_highlight.dfy): the choice of the current section, and
  the link classes that follow from it.
- `Chrome` (chrome.dfy): class `Page`, with the menu and scroll classes as
  boolean fields.

Where the model follows the code rather than a simpler reading of it:

- The submit check tests the e-mail untrimmed (script.js:209), while the
  blur check trims it first (script.js:219). An address with a leading space
  therefore passes the blur check and fails the submit check.
- A whitespace-only e-mail fails both submit rules. It ends with the e-mail
  message, because the second annotation replaces the first.
- The submit check never clears the annotation of a field that passes.
- The submission gate moves to sending only when none of the four checked
  fields shows an annotation, but only while every such annotation is
  current, that is while the field still fails the submit check. The
  handlers keep that invariant, with two exceptions:
  - a completed submission resets the values, and an annotation left from
    before stays stale when the field's default value passes the check
    (defaults that are blank keep it current);
  - a field outside the four (a blank required one, say) can carry a blur
    annotation that the submit check ignores.
- `form.reset()` restores values only. Annotations and marks stay after a
  completed submission.
- When no section's window holds the scroll offset, the current id is the
  empty string. A link whose href is exactly `#` then becomes active, so
  "no section, no active link" holds only for pages without such a link.
- "At most one active link" holds when the links' hrefs are distinct. Two
  links with the same href are highlighted together.

## Model

| member | source | states |
|---|---|---|
| Text.IsWhitespace | script.js:201 | the characters `trim()` removes and `\s` matches: the ECMAScript WhiteSpace and LineTerminator code points |
| Text.Trim | script.js:219 | the trimmed value is the input with only whitespace cut off its two ends (a slice `s[a..b]` with blank `s[..a]` and `s[b..]`), it neither starts nor ends with whitespace, and a whitespace-free value is left unchanged |
| Text.TrimEmptyIffBlank | script.js:201 | trimming yields the empty string exactly when every character is whitespace, which is when `!value` holds after `trim()` in both checks |
| Text.IndexOf | script.js:208 | finds the first `@`: none exactly when there is no `@`, otherwise an in-range position holding it with no earlier one |
| Email.MatchesEmailRegex | script.js:208 | the language of `^[^\s@]+@[^\s@]+\.[^\s@]+$`: a split `local @ domain . tld` into three non-empty parts free of whitespace and `@` |
| Email.IsEmailAddress | script.js:224 | the executable form of `.test(value)`: no whitespace, a first `@` after a non-empty part, no further `@`, and a `.` strictly inside the rest |
| Email.EmailAddressIffRegex | script.js:208-209 | the executable address test accepts exactly the strings the pattern `^[^\s@]+@[^\s@]+\.[^\s@]+$` matches: a non-empty part without whitespace or `@`, then `@`, then a non-empty part, then `.`, then a non-empty part |
| Email.AddressMatchesRegex | script.js:208 | every string the address test accepts is matched by the pattern |
| Email.RegexMatchIsAddress | script.js:224 | every string the pattern matches is accepted by the address test |
| Email.SplitIsAddress | script.js:224 | a split of the string as the pattern describes makes the executable test accept it |
| Email.SplitCharsClean | script.js:208 | under such a split no character is whitespace and the only `@` is the one between the first two parts |
| Email.NoAtNeverAddress | script.js:224 | a value without `@` never matches |
| Email.WhitespaceNeverAddress | script.js:224 | a value with a whitespace character anywhere never matches |
| Email.AddressShape | script.js:208 | an accepted address has no whitespace, exactly one `@`, and neither starts nor ends with `@` |
| Validation.CheckField | script.js:217-229 | the blur check's decision on a field: the required message, the e-mail message, or none, computed on the trimmed value |
| Validation.CheckFieldBranches | script.js:217-229 | the blur check takes exactly one branch: the required message iff the field is required and blank; otherwise the e-mail message iff it is the e-mail field, not blank, and its trimmed value is not matched by the pattern; otherwise no error |
| Validation.OptionalPlainFieldPasses | script.js:222-228 | a field that is neither required nor named `email` always ends with no annotation |
| Validation.FieldMissing | script.js:201 | the required rule's failure: the field is absent from the submitted data or its value is empty after trimming |
| Validation.EmailRejected | script.js:209 | the e-mail rule's failure: a present, non-empty e-mail whose untrimmed value the pattern does not match |
| Validation.FormFieldFails | script.js:199-212 | the fields validateForm annotates: one of the four checked fields that is missing, or the e-mail field when the e-mail rule fails |
| Validation.AllFilled | script.js:196-205 | the running `isValid` after the required-field loop has visited a prefix of the four names: true while none of them is missing |
| Validation.RequiredMarks | script.js:200-205 | the invalid marks after the required-field loop has visited a prefix of the four names: each missing one is marked, the others keep their mark |
| Validation.RequiredPass | script.js:199-205 | the annotations after the required-field loop has visited a prefix of the four names: each missing one gets the required message |
| Validation.FormAccepts | script.js:195-215 | the value validateForm returns: the required-field loop found nothing missing and the untrimmed e-mail was not rejected |
| Validation.FormAnnotations | script.js:195-215 | the annotations after validateForm: the required-field loop, then the e-mail message over the e-mail field when the pattern rejects it |
| Validation.FormMarks | script.js:195-215 | the invalid marks after validateForm, built the same way |
| Validation.AllFilledIff | script.js:199-205 | the required-field loop's running verdict is false exactly when some checked field is absent or blank after trimming |
| Validation.RequiredPassAt | script.js:199-205 | after the loop, each checked missing field carries exactly the required message and is marked, every other field keeps its annotations and mark, and no field appears or disappears |
| Validation.FormAcceptsIff | script.js:195-215 | the submit check accepts iff all of `name`, `email`, `subject`, `message` are present and not blank, and the untrimmed e-mail is matched by the pattern |
| Validation.FormAnnotationsAt | script.js:195-215 | after the submit check, a field whose e-mail was rejected has exactly the e-mail message, any other failing field exactly the required message, and both are marked; a passing field keeps its old annotations and mark |
| Validation.FormAnnotationsKeepOnePerField | script.js:195-215 | the submit check never leaves two annotations under a field |
| Validation.AcceptedFormChangesNothing | script.js:195-215 | an accepted submission changes no annotation and no mark |
| Validation.BlankEmailShowsEmailMessage | script.js:201-211 | a non-empty whitespace-only e-mail fails both rules and ends with the e-mail message |
| Validation.FormAcceptanceImpliesFieldAcceptance | script.js:195-229 | every field of a form the submit check accepts also passes the blur check, whether or not it is required |
| Validation.FieldCheckLaxerThanForm | script.js:209-224 | the converse fails: `" a@b.co"` passes the blur check of a required e-mail field and fails the submit check |
| Validation.LeadingSpacePassesBlurCheck | script.js:219-224 | the blur check trims `" a@b.co"` to an accepted address |
| Validation.LeadingSpaceFailsForm | script.js:209 | the submit check rejects the untrimmed `" a@b.co"` |
| Validation.SampleAddressAccepted | script.js:208 | `a@b.co` is an accepted address |
| Validation.WellFormedAddressPasses | script.js:224 | a required e-mail field holding `a@b.co` passes the blur check |
| Validation.AddressWithoutDotRejected | script.js:224 | `a@b` gets the e-mail message |
| Validation.AddressWithoutAtRejected | script.js:224 | `ab.com` gets the e-mail message |
| Validation.AddressWithSpaceRejected | script.js:224 | `a @b.com` gets the e-mail message |
| Validation.EmptyAddressMissing | script.js:222 | an empty required e-mail field gets the required message |
| Validation.FilledFormAccepted | script.js:195-215 | a form with all four fields filled and a well-formed address is accepted |
| Validation.FilledFormData | script.js:199-212 | in that form every field is non-blank and the e-mail is an accepted address |
| Validation.AcceptedWhenFilled | script.js:199-212 | four non-blank fields, with an accepted untrimmed e-mail, make the form accepted |
| Validation.FilledNotMissing | script.js:201 | four non-blank values leave none of the four fields missing for the required-field loop |
| Validation.SampleFullAddressAccepted | script.js:208 | `alice@example.com` is an accepted address |
| Validation.MalformedEmailOnlyAnnotatesEmail | script.js:195-215 | a form whose only fault is an e-mail without `@` is rejected, and only the e-mail field's annotation changes, to the e-mail message |
| Validation.MalformedEmailData | script.js:201-209 | in that form every field is filled and the e-mail is not accepted |
| Validation.NoAtRejected | script.js:208 | `not-an-email` is not an accepted address |
| Validation.OnlyEmailRejected | script.js:195-215 | a filled form with a rejected e-mail is refused, and only the e-mail annotation changes |
| Validation.AnnotationsCurrent | script.js:195-229 | the submission gate's invariant: each of the four checked fields shows an annotation only while the submit check fails on it |
| Validation.BlurFailureIsSubmitFailure | script.js:201-224 | a value the blur check rejects is also rejected by the submit check, whether or not the field is required |
| Validation.FormAnnotationsKeepCurrent | script.js:195-215 | the submit check keeps annotations current: it annotates only failing fields and keeps the old, current ones |
| Validation.AcceptedFormHasNoAnnotations | script.js:176-178 | while annotations are current, a form the submit check accepts shows none on the four fields |
| Validation.AcceptedFormLeavesNoAnnotations | script.js:176-184 | while annotations are current, an accepted submission changes no annotation and leaves the four fields unannotated |
| Validation.OtherFieldFailureIgnoredBySubmit | script.js:199-222 | a blank required field outside the four gets the required message on blur while the submit check does not fail it |
| ContactForm.AnnotationFor | script.js:222-228 | what a blur check leaves under its field: nothing when it passes, one annotation with the failing rule's message otherwise |
| ContactForm.Form.Valid | script.js:231-251 | the invariant every handler keeps: each field has at most one `.field-error` annotation, every map covers exactly the form's fields, the four checked names are fields, and the button is disabled exactly while a completion is pending, showing "Sending..." |
| ContactForm.Form.constructor | script.js:158-167 | the state the page markup gives the form when these handlers are installed: every control at its default value, no annotation, no mark, an enabled button with its text, and annotations current |
| ContactForm.Form.ShowFieldError | script.js:231-251 | the named field ends with exactly one annotation, the given message, and is marked; no other field changes; the one-annotation invariant is kept |
| ContactForm.Form.ClearFieldError | script.js:253-263 | the named field ends with no annotation and no mark whatever its prior state (so clearing twice is clearing once); no other field changes; current annotations stay current |
| ContactForm.Form.Input | script.js:165 | editing a field stores the value and clears that field's annotation and mark; current annotations stay current |
| ContactForm.Form.ValidateField | script.js:217-229 | the field's annotation becomes the message of its blur check, or none; it is marked exactly when the check fails; nothing else changes; current annotations stay current, since a blur failure on one of the four fields is a submit failure too |
| ContactForm.Form.ValidateForm | script.js:195-215 | the result is the submit check's verdict, and the annotations and marks become those the submit check specifies |
| ContactForm.Form.Submit | script.js:169-185 | a rejected submission leaves the button enabled with its text and schedules nothing; an accepted one disables the button, shows "Sending..." and schedules a completion holding the original text; values and notifications are unchanged; current annotations stay current, and while they are, the form moves to sending only with none of the four fields annotated |
| ContactForm.Form.Complete | script.js:187-192 | the completion emits one success notification, resets every value to its default, restores the original text, re-enables the button, and leaves annotations and marks alone; annotations are current afterwards whenever the four defaults are missing values |
| Portfolio.Shows | script.js:146 | an item is shown when the filter is `all` or its category equals the filter value, an absent attribute equal only to another absent one |
| Portfolio.FilterClick | script.js:133-154 | after a click, exactly the clicked button is active, and each item is displayed iff the filter is `all` or equals the item's category, and hidden otherwise |
| Portfolio.ExactlyOneActive | script.js:136-138 | the button states FilterClick leaves have exactly one active button |
| Portfolio.AllShowsEverything | script.js:143-151 | under `all`, every item is shown |
| Portfolio.FilterShowsItsCategory | script.js:143-151 | under any other filter, the number of shown items is the number of items of that category |
| NavHighlight.InWindow | script.js:78-81 | the offset lies in `[offsetTop-100, offsetTop-100+offsetHeight)` |
| NavHighlight.LinkActive | script.js:88 | a link is highlighted when its `href` attribute is present and equals `#` followed by the current id |
| NavHighlight.CurrentSectionId | script.js:75-84 | the value `currentSection` ends with: the id of the last section whose window holds the offset, or `""` |
| NavHighlight.LastInWindow | script.js:77-84 | finds the last section whose window `[top-100, top-100+height)` holds the offset: none exactly when no window does |
| NavHighlight.FindCurrentSection | script.js:75-84 | the loop's final `currentSection` is the id of the last section whose window holds the offset, or the empty string |
| NavHighlight.UpdateActiveNavLink | script.js:71-92 | afterwards, a link is active iff its href is `#` followed by the current id |
| NavHighlight.CurrentIsLastInWindow | script.js:77-84 | when section i's window holds the offset and no later one does, the current id is section i's |
| NavHighlight.AtMostOneLinkActive | script.js:86-91 | with distinct hrefs, at most one link is active |
| NavHighlight.NoWindowActivatesBareHash | script.js:75-91 | with no window holding the offset, the current id is empty and a link is active iff its href is exactly `#` |
| NavHighlight.StackedOrder | script.js:77-79 | in a layout of stacked sections, a later section starts at or below the end of an earlier one |
| NavHighlight.StackedHasOneWindow | script.js:77-84 | in such a layout, at most one section's window holds the offset |
| Chrome.NavbarScrolledAt | script.js:102 | the navigation bar takes the `scrolled` class at an offset strictly above 50 pixels, fractional offsets included |
| Chrome.BackToTopVisibleAt | script.js:109 | the back-to-top button takes the `visible` class at an offset strictly above 300 pixels, fractional offsets included |
| Chrome.Page.Valid | script.js:44-113 | the invariant the handlers keep: the three menu classes are equal (toggleMobileMenu and closeMobileMenu, lines 44-54), and the back-to-top button is only visible over a scrolled bar (300 lies above 50; updateScrollEffects, lines 102-113) |
| Chrome.Page.constructor | script.js:96 | no frame requested (`ticking` starts false); the menu closed and nothing scrolled, as the page markup gives it |
| Chrome.Page.ToggleMobileMenu | script.js:44-48 | each of the three menu classes flips, and they stay equal |
| Chrome.Page.CloseMobileMenu | script.js:50-54 | all three menu classes are removed, whatever their state |
| Chrome.Page.RequestTick | script.js:118-123 | a frame is requested only if none is pending, and one is pending afterwards |
| Chrome.Page.UpdateScrollEffects | script.js:98-116 | the bar is scrolled iff the offset is above 50, the button is visible iff it is above 300, and a new frame may be requested |

## Left out

- Animation effects and frame loops: the cursor trail, counters, parallax, card tilt and magnetic hover, ripples, the typing animation and the `fadeInUp` animation the filter sets on shown items. They are timing and floating-point styling, not decisions.
- `debounce` and `throttle`: their point is timing, and nothing uses them.
- IntersectionObserver wiring, smooth scrolling, and the back-to-top click. These are thin calls to `IntersectionObserver` and `window.scrollTo`.
- The preloader, and the markup, styling and dismiss timers of notifications. A notification is only the emitted event (its text and kind) in `Form.notifications`.
- Global error logging and service-worker registration: they are browser I/O.
- DOM lookup and listener registration (`querySelector`, `closest`, `FormData`, `addEventListener`). Fields are addressed by name, and the submitted data is the map of the form's values.
- The border colour and error-element styling. They are modelled as the invalid mark and the annotation text.
- Timers and animation frames are not time. The 2000 ms completion is the step `Form.Complete`, and the animation frame is the call `Page.UpdateScrollEffects`. Both may run at any later point the caller chooses.
- NavHighlight.UpdateActiveNavLink: offsets are whole pixels. A fractional `pageYOffset` is not modelled.
- ContactForm.Form.ShowFieldError: the source throws when no control has the given name. The model requires the name to be one of the form's fields instead.
- ContactForm.Form.Submit: requires an enabled button. The browser does not submit a form through its disabled default button, so while a completion is pending no second submission reaches the handler.
- End-to-end runs of the form are stated as lemmas on the specifying functions (for example FilledFormAccepted and MalformedEmailOnlyAnnotatesEmail), not as sequences of method calls.
