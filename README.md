# Clinic records: input validation

This project models the input-validation layer of a small clinic-records web
application (patients and their medical-visit records). Validation lives in
`forms.py`. It holds two hand-written validators and three forms:

- the phone format check;
- the not-in-the-future date check;
- the patient, medical-record and registration forms, which list their fields with the validators each one runs.

The model has five modules:

- `Dates`: calendar dates as Python's `datetime.date` holds them. `After` is Python's `>` on dates. `AfterIsChronological` proves that it is the order of `date.toordinal()`, computed as CPython does (a closed form for the days before a year, a table for the days before a month).
- `PhoneNumber`: the pattern `\+?[0-9]{7,15}` under `re.fullmatch`. `FullMatch` runs it as an automaton, one character at a time. `InLanguage` states its two alternatives directly: digits alone, or `+` then digits. `FullMatchIff` proves the two agree on every string.
- `Validators`: `validate_phone` and `validate_dob_not_future`. Each returns whether the field passes; `false` stands for the `ValidationError` it raises. `date.today()` is a parameter.
- `Chain`: how WTForms runs a field's validators. A `ValidationError` records its message and the chain goes on. `DataRequired`, on a field without data, clears the field's messages, records its own and stops the chain. `Optional` clears the field's messages and stops it. A form is valid when no field has a message (`Validate` returns no violation). `Validate` models the `validate_on_submit()` call at app.py:65, without its CSRF and request-method tests.
- `Forms`: the three forms as declared lists of validators (`PatientForm`, `MedicalRecordForm`, `RegistrationForm`). For each form, a predicate states directly what it accepts (`PatientValid`, `MedicalRecordValid`, `RegistrationValid`). A lemma proves the predicate equal to what running the declared validators accepts.

A field's value is `Blank` (no usable data), `Text(s)` or `Day(d)`. WTForms decides which of these a request produces. Date fields hold `Blank` or `Day`; text fields hold `Blank` or `Text` (`WellKinded`).

The name must have 2 to 100 characters (forms.py:20).

## Model

| member | source | states |
|---|---|---|
| Dates.AfterIsChronological | forms.py:16 | Python's `>` on valid dates holds exactly when the first date has the larger ordinal (is later in the calendar); equal ordinals mean equal dates |
| PhoneNumber.FullMatchIff | forms.py:11 | the whole-string match of `\+?[0-9]{7,15}` succeeds exactly on 7 to 15 ASCII digits, optionally preceded by one `+` |
| PhoneNumber.RunDigits | forms.py:11 | after n digits, reading more characters keeps matching exactly while they are digits and the count stays at most 15; otherwise no match is possible any more |
| PhoneNumber.MatchedCharacters | forms.py:11 | in any accepted phone every character is a digit, except that the first may be `+`; a later `+`, a second `+`, a space, a dash or any other character is refused |
| PhoneNumber.MatchedLength | forms.py:10-11 | the `+` does not count towards the digits: an accepted phone has 7 to 15 characters, or 8 to 16 when it starts with `+` |
| PhoneNumber.DigitCountDecides | forms.py:10-11 | a digit string, with or without a leading `+`, is accepted exactly when it has 7 to 15 digits |
| PhoneNumber.InternationalExample | forms.py:11 | "+14155550123" is accepted |
| PhoneNumber.ShortestExamples | forms.py:11 | seven digits are accepted, with or without `+` |
| PhoneNumber.DigitCountExamples | forms.py:11 | six digits and sixteen digits are refused, with or without `+`; the empty string does not match |
| PhoneNumber.ForeignCharacterExamples | forms.py:11 | "abc", a trailing newline, "++…", an inner `+`, a space and a dash are refused |
| Validators.PhoneOk | forms.py:9-12 | `validate_phone` passes no data and the empty string; any other text passes exactly when it is in the pattern's language |
| Validators.NotFutureOk | forms.py:15-17 | `validate_dob_not_future` passes a field without a date; for valid dates it passes exactly when the date's ordinal is at most today's |
| Validators.TodayIsTheLastDayAccepted | forms.py:16 | a date equal to today passes, the day after today fails |
| Chain.RunChain | forms.py:20-38 | a field's messages come only from validators of its chain; when every validator passes, nothing is added |
| Chain.Validate | app.py:65 | the form reports no violation exactly when every declared field has no message |
| Chain.ViolationsOfFields | app.py:65 | a violation is reported exactly when a declared field of that name has a message from that validator |
| Chain.RequiredClearsEarlier | forms.py:20 | `DataRequired` on a field without data leaves exactly its own message, whatever earlier validators recorded |
| Chain.RequiredThen | forms.py:20 | with `DataRequired` first, a field without data gets the "required" message alone; otherwise the following validator decides |
| Chain.OptionalThen | forms.py:23 | with `Optional` first, a field without data gets no message, whatever the following validator would say |
| Forms.OptionalMaxFieldAccepts | forms.py:29-32 | an optional field with `Length(max=n)` has no message exactly when it holds at most n characters |
| Forms.RequiredBetweenFieldAccepts | forms.py:36 | a required field with `Length(min, max)` has no message exactly when it holds text of min to max characters |
| Forms.NameErrors | forms.py:20 | the name gets "required" alone when empty, the length message when it has fewer than 2 or more than 100 characters, nothing otherwise |
| Forms.NameLengthBoundaries | forms.py:20 | names of 1 and 101 characters are refused with the length message; 2 and 100 are accepted |
| Forms.DobFieldAccepts | forms.py:21 | the date of birth has no message exactly when it is absent or not after today |
| Forms.PhoneFieldAccepts | forms.py:24 | the phone has no message exactly when it is absent, empty, or in the pattern's language |
| Forms.EmailFieldAccepts | forms.py:25 | the e-mail has no message exactly when it is absent, empty, or accepted by the e-mail check |
| Forms.PatientFormAccepts | forms.py:19-25 | the patient form is valid exactly when the name has 2 to 100 characters, the dob is absent or not after today, the address has at most 200 characters, the phone is absent or well-formed, and the e-mail is absent or accepted |
| Forms.RecordDateErrors | forms.py:28 | the record date gets "required" alone when absent, the future-date message when after today, nothing otherwise |
| Forms.RecordDateBoundary | forms.py:28 | a record dated today is accepted; one dated the next day gets the future-date message |
| Forms.MedicalRecordFormAccepts | forms.py:27-32 | the medical-record form is valid exactly when the date is present and not after today, reason, diagnosis and treatment have at most 500 characters each and the notes at most 1000 |
| Forms.PasswordFieldAccepts | forms.py:37 | the password has no message exactly when it has at least 6 characters; there is no upper bound |
| Forms.ConfirmFieldAccepts | forms.py:38 | the confirmation has no message exactly when it is given and equal to the password |
| Forms.RegistrationFormAccepts | forms.py:35-38 | the registration form is valid exactly when the username has 4 to 50 characters, the password at least 6, and the confirmation equals the password |
| Forms.MismatchIsReported | forms.py:38 | a confirmation that is given but differs from the password is reported against `confirm_password` as a mismatch with `password` |

## Left out

- `app.py` is not part of this model, except the `validate_on_submit()` call at app.py:65 that `Chain.Validate` stands for. It holds the Flask routes, the rendering and flash messages, the PostgreSQL connection handling and the SQL queries (search, ordering, the records-then-patient delete). Those rules are executed by the database, not by this code.
- `LoginForm` (forms.py:40-42): it only requires both fields.
- The e-mail syntax check belongs to an external library. It is the parameter `emailOk` of the validation context.
- `DateField` parsing of `%Y-%m-%d`: a date field holds a parsed date or nothing. The "not a valid date" message of a parse failure is not modelled.
- `SelectField` choice checking for the gender: the gender's chain has only `Optional`, so the model never reports a message for it.
- Whitespace: WTForms treats whitespace-only input as empty in `Optional` and `DataRequired`. The model expects such input as `Blank` and has no notion of Unicode whitespace.
- Message texts: a violation names the field and the validator that raised it, not the Spanish message text. The date validator's message speaks of the date of birth even on the record date (forms.py:17, 28).
- CSRF protection and the request-method test of `validate_on_submit`.
- `date.today()` and the system clock: today's date is a parameter.
- Python's `re` engine in general: only this one pattern is modelled, as an automaton.
- A validator given a value of the wrong kind (a date for the phone, text for a date) passes in the model rather than raising a Python error; the declared forms never do this for well-kinded input.
- `EqualTo`'s error for a field name the form does not declare: the registration form declares `password`.
- `Dates.NextDay` of 9999-12-31 is not a valid date; Python raises `OverflowError` there.
