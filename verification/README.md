# Job application form: validator and form state

A Dafny model of the logic underneath a single React job application form.
It has two parts:

- **the validator** (`validate`): a pure function from the form's field values
  to a map from field name to error message. Each field has a "required" rule
  and most have an "invalid" rule. The experience rule applies only to
  Developers and Designers, and the portfolio rule only to Designers.
- **the form-state hook** (`useForm`): the field values plus the error map of
  the last submit. Text and select inputs overwrite one field. Skill checkboxes
  append to or filter the skills list. Submit replaces the error map with the
  validator's verdict and marks the form submitted when there are no errors.

Files:

- `patterns.dfy` (module `Patterns`) holds the three regular expressions the
  validator uses: `^\d+$`, `\S+@\S+\.\S+` (searched for anywhere in the string)
  and `^(ftp|http|https):\/\/[^ "]+$`. Each is a recursive matcher. Each has a
  declarative description of the strings it accepts, and a lemma proves the two
  agree.
- `validator.dfy` (module `Validator`) holds `FormValues`, the initial values,
  the exact messages and `Validate`, built up rule by rule as the source does.
  `ExpectedError` is a per-field rule table that does not depend on evaluation
  order. Lemmas show that `Validate` agrees with the table, and prove the
  properties of individual rules.
- `form_state.dfy` (module `FormState`) holds the hook's state, the three
  event handlers as `State -> State` functions, and a run over a sequence of
  events. As in the source, the hook receives the validator as a parameter.
  `FormValidator` supplies the form's own validator.

The two host-language conversions the rules rely on are parameters, bundled in
a `Host` value. `toNumber` is JavaScript's string-to-number coercion, with
`None` standing for NaN. `parsesAsDate` says whether `Date.parse` yields a
number.

Two behaviours of the hook are worth stating plainly:

- A failing submit leaves `submitted` as it was (`src/useForm.js:34-36`), so
  the mark records that some submit succeeded, not that the last one did.
  `SubmittedIffSomeSubmitSucceeded` states this, and
  `StaleSubmittedAfterFailedSubmit` shows a run in which the mark is true
  while the e-mail error is shown.
- Checking a skill appends it without testing whether it is already there
  (`src/useForm.js:20`). `CheckboxKeepsSkillsDistinct` shows that the rendered
  checkboxes still never produce a duplicate, because their ticked state
  follows `skills.includes(skill)`.

## Model

| member | source | states |
|---|---|---|
| Patterns.AllDigitsSpec | src/JobApplicationForm.js:26 | `PhoneMatches` (non-empty and `AllDigits`) models `/^\d+$/`; the recursive digit check accepts a string exactly when every character is an ASCII digit |
| Patterns.EmailMatchesSpec | src/JobApplicationForm.js:24 | `EmailMatches` models `/\S+@\S+\.\S+/`; it accepts exactly the strings with a whitespace-free window of the form `x@y.z`, each of x, y and z non-empty |
| Patterns.UrlMatchesSpec | src/JobApplicationForm.js:33 | `UrlMatches` models the anchored URL pattern (one of three schemes, `://`, then `[^ "]+`); it accepts exactly `scheme://rest`, where scheme is ftp, http or https and rest is non-empty with no space or double quote |
| Patterns.EmailSamples | src/JobApplicationForm.js:24 | the e-mail pattern occurs in "jo@x.com" and not in "bad" |
| Patterns.UrlSamples | src/JobApplicationForm.js:33 | the URL pattern accepts "http://a.com" and rejects "notaurl" |
| Validator.Validate | src/JobApplicationForm.js:20-38 | the error map only ever has keys among the seven validated fields |
| Validator.FullNameFollowsRule | src/JobApplicationForm.js:22 | fullName gets "Full name is required." exactly when it is empty, and otherwise no entry |
| Validator.EmailFollowsRule | src/JobApplicationForm.js:23-24 | email gets the required message when empty, the invalid message when the pattern does not occur in it, and otherwise no entry |
| Validator.PhoneFollowsRule | src/JobApplicationForm.js:25-26 | phoneNumber gets the required message when empty, the invalid message when some character is not a digit, and otherwise no entry |
| Validator.ExperienceFollowsRule | src/JobApplicationForm.js:27-30 | experience gets an entry only for Developer or Designer: required when empty, invalid when the coerced number is at most 0 |
| Validator.PortfolioFollowsRule | src/JobApplicationForm.js:31-34 | portfolioUrl gets an entry only for Designer: required when empty, invalid when not a listed-scheme URL |
| Validator.SkillsFollowsRule | src/JobApplicationForm.js:35 | skills gets the required message exactly when the list is empty |
| Validator.InterviewFollowsRule | src/JobApplicationForm.js:36-37 | interviewTime gets the required message when empty, the invalid message when it does not parse as a date, and otherwise no entry |
| Validator.ValidateFollowsRules | src/JobApplicationForm.js:20-38 | for every key, present or absent, the validator's entry is the one the per-field rule table gives |
| Validator.ValidateEmptyIff | src/JobApplicationForm.js:20-38 | the error map is empty exactly when every field passes its rule in the rule table |
| Validator.ErrorKeysBounded | src/JobApplicationForm.js:20-38 | error keys are among fullName, email, phoneNumber, experience, portfolioUrl, skills and interviewTime; managementExperience is never a key |
| Validator.RequiredExactlyWhenEmpty | src/JobApplicationForm.js:22-37 | a field carries its "required" message exactly when its rule applies and it is empty, so a non-empty field never gets it |
| Validator.PhoneRule | src/JobApplicationForm.js:25-26 | a non-empty phone number has no error exactly when every character is a digit, and otherwise gets "Phone number is invalid." |
| Validator.EmailRule | src/JobApplicationForm.js:23-24 | a non-empty e-mail has no error exactly when the pattern occurs in it, and otherwise gets "Email address is invalid." |
| Validator.NoExperienceErrorOtherwise | src/JobApplicationForm.js:27-30 | for a position other than Developer or Designer there is never an experience error, whatever experience holds |
| Validator.ExperienceNaNAccepted | src/JobApplicationForm.js:29 | a non-empty experience that coerces to NaN gets no error, because NaN never compares `<= 0` |
| Validator.NoPortfolioErrorOtherwise | src/JobApplicationForm.js:31-34 | for a position other than Designer there is never a portfolio error |
| Validator.DesignerPortfolioExamples | src/JobApplicationForm.js:31-34 | for a Designer, "http://a.com" passes and "notaurl" gets "URL is invalid." |
| Validator.EmptySkillsAlwaysReported | src/JobApplicationForm.js:35 | an empty skills list always gets "At least one skill must be selected.", whatever the other fields hold |
| Validator.RulesIndependent | src/JobApplicationForm.js:20-38 | two value records that agree on the fields a rule reads (that field, plus position for experience and portfolio) get the same entry under that key |
| Validator.InitialErrors | src/JobApplicationForm.js:6-38 | submitting the initial, all-empty form reports exactly the five unconditional fields as required |
| Validator.ExampleIsValid | src/JobApplicationForm.js:20-38 | the example Developer applicant (Jo, jo@x.com, 5551234, 3 years, JavaScript, a parseable time) gets an empty error map |
| Validator.ExampleBadEmail | src/JobApplicationForm.js:20-38 | the same applicant with e-mail "bad" gets exactly `{email: "Email address is invalid."}` |
| FormState.InputChange | src/useForm.js:7-13 | an input change sets the named field to the new value, leaves every other field, the skills, the submitted mark and the error map unchanged |
| FormState.Without | src/useForm.js:25 | the filter removes every occurrence of the skill and keeps every other element as often as before and in its original order |
| FormState.CheckboxChange | src/useForm.js:15-28 | checking appends the skill at the end, keeping the old list as prefix; unchecking filters it out; nothing else changes |
| FormState.WithoutAppended | src/useForm.js:20-25 | filtering a value out of a list it was just appended to, and was not in before, gives back the list |
| FormState.CheckThenUncheck | src/useForm.js:17-26 | checking a skill that is not in the list and then unchecking it restores the whole state |
| FormState.CheckboxKeepsSkillsDistinct | src/JobApplicationForm.js:92-100 | when clicks report `checked` as the opposite of `skills.includes(skill)`, the list never holds a skill twice |
| FormState.CheckboxKeepsCatalog | src/JobApplicationForm.js:92-100 | clicking one of the three offered skills keeps every skill in the list among JavaScript, CSS and Python |
| FormState.Submit | src/useForm.js:30-37 | submit replaces the error map with the validator's verdict; submitted becomes true when the verdict is empty and is otherwise kept; no other field changes |
| FormState.StepSubmitted | src/useForm.js:7-37 | only a submit that shows an empty error map changes the submitted mark, and only from false to true |
| FormState.SubmittedIffSomeSubmitSucceeded | src/useForm.js:30-37 | after any sequence of events the form is marked submitted exactly when it started marked or some submit along the way found no error |
| FormState.SubmittedFromStart | src/useForm.js:30-37 | from the initial values with no errors, the form is marked submitted exactly when some submit has found no error |
| FormState.FormSubmitSucceedsIff | src/useForm.js:30-37 | with the form's own validator, a submit shows an empty error map exactly when every field passes its rule |
| FormState.ExampleSubmitSucceeds | src/useForm.js:30-37 | submitting the example applicant marks the form submitted and shows no error |
| FormState.StaleSubmittedAfterFailedSubmit | src/useForm.js:34-36 | after a successful submit, changing the e-mail to "bad" and submitting again shows the e-mail error while submitted stays true |

## Left out

- `src/index.js`, the JSX rendering, the conditional visibility of the experience, portfolio and management fields, and the summary block: these are page mounting and UI only.
- React's `useState` and re-rendering: the hook is a state record and step functions; each handler reads the state current when it runs.
- `e.preventDefault()` in the submit handler: a browser side effect with no effect on the state.
- `Date.parse`: implementation-defined date parsing in the host; the model takes it as the parameter `Host.parsesAsDate`.
- The coercion in `values.experience <= 0`: floating-point string-to-number conversion in the host; the model takes it as `Host.toNumber`, with `None` for NaN, and claims nothing about which strings are numbers.
- `handleInputChange` with a `name` other than the eight scalar inputs, and `handleCheckboxChange` with a `name` other than `skills`: the form renders no such inputs, so the model fixes the field names as an enumeration.
- General regular-expression semantics: only the three patterns the validator uses are modelled, each by hand. Characters are Unicode scalar values rather than UTF-16 code units. Each character class involved contains either both halves of every surrogate pair (`\S`, `[^ "]`) or neither (`\d`), and each is under `+`, so a pair of code units matches exactly where the one character does. A JavaScript string holding a lone surrogate has no Dafny `string` counterpart.
