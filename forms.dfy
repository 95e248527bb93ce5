/** The three forms of the clinic application, each as the list of fields
    it declares with their validators, and for each form a direct statement
    of what it accepts, proved equal to what running its validators accepts. */
module Forms {
  import opened Dates
  import PhoneNumber
  import opened Validators
  import opened Chain

  /** Text of at most `max` characters, when there is text. */
  predicate AtMost(v: Value, max: nat) {
    v.Text? ==> |v.s| <= max
  }

  /** Text of `min` to `max` characters. */
  predicate Between(v: Value, min: nat, max: nat) {
    v.Text? && min <= |v.s| <= max
  }

  /** An optional field limited to `max` characters reports nothing exactly
      when it holds at most `max` characters. */
  lemma OptionalMaxFieldAccepts(f: FieldSpec, max: nat, ctx: Context)
    requires f.checks == [Optional, Length(-1, max)]
    ensures FieldErrors(f, ctx) == [] <==> AtMost(Lookup(ctx.input, f.name), max)
  {
    OptionalThen(Length(-1, max), Lookup(ctx.input, f.name), ctx);
  }

  /** A required field of `min` to `max` characters reports nothing exactly
      when it holds text of that length. */
  lemma RequiredBetweenFieldAccepts(f: FieldSpec, min: nat, max: nat, ctx: Context)
    requires 0 < min <= max && f.checks == [DataRequired, Length(min, max)]
    ensures FieldErrors(f, ctx) == [] <==> Between(Lookup(ctx.input, f.name), min, max)
  {
    RequiredThen(Length(min, max), Lookup(ctx.input, f.name), ctx);
  }

  // PatientForm

  const NameField := FieldSpec("name", TextField, [DataRequired, Length(2, 100)])
  const DobField := FieldSpec("dob", DateField, [Optional, NotFuture])
  const GenderField := FieldSpec("gender", TextField, [Optional])
  const AddressField := FieldSpec("address", TextField, [Optional, Length(-1, 200)])
  const PhoneField := FieldSpec("phone", TextField, [Optional, Phone])
  const EmailField := FieldSpec("email", TextField, [Optional, Email])

  const PatientForm: seq<FieldSpec> :=
    [NameField, DobField, GenderField, AddressField, PhoneField, EmailField]

  /** No date, or one that is not after today. */
  predicate NotAfter(v: Value, today: Date) {
    !(v.Day? && After(v.d, today))
  }

  /** No phone, or an optional `+` followed by 7 to 15 digits. */
  predicate PhoneGiven(v: Value) {
    v.Text? && v.s != "" ==> PhoneNumber.InLanguage(v.s)
  }

  /** No e-mail, or one the e-mail check accepts. */
  predicate EmailGiven(v: Value, emailOk: string -> bool) {
    v.Text? && v.s != "" ==> emailOk(v.s)
  }

  /** A patient is accepted when the name has 2 to 100 characters, the date
      of birth (if given) is not after today, the address (if given) has at
      most 200 characters, the phone (if given) is an optional `+` and 7 to
      15 digits, and the e-mail (if given) passes the e-mail check. */
  predicate PatientValid(input: map<string, Value>, today: Date, emailOk: string -> bool) {
    && Between(Lookup(input, "name"), 2, 100)
    && NotAfter(Lookup(input, "dob"), today)
    && AtMost(Lookup(input, "address"), 200)
    && PhoneGiven(Lookup(input, "phone"))
    && EmailGiven(Lookup(input, "email"), emailOk)
  }

  /** The name field's messages: "required" alone when the name is empty,
      the length message when it has fewer than 2 or more than 100 characters. */
  lemma NameErrors(v: Value, ctx: Context)
    requires KindOk(TextField, v)
    ensures RunChain(NameField.checks, v, ctx, []) ==
      if !Truthy(v) then [DataRequired]
      else if 2 <= |v.s| <= 100 then []
      else [Length(2, 100)]
  {
    RequiredThen(Length(2, 100), v, ctx);
  }

  /** The length bounds of the name at their edges: 1 and 101 characters are
      refused, 2 and 100 accepted. */
  lemma NameLengthBoundaries(s: string, ctx: Context)
    ensures |s| == 1 || |s| == 101 ==> RunChain(NameField.checks, Text(s), ctx, []) == [Length(2, 100)]
    ensures |s| == 2 || |s| == 100 ==> RunChain(NameField.checks, Text(s), ctx, []) == []
  {
    NameErrors(Text(s), ctx);
  }

  /** The date of birth reports nothing exactly when it is absent or not after today. */
  lemma DobFieldAccepts(ctx: Context)
    ensures FieldErrors(DobField, ctx) == [] <==> NotAfter(Lookup(ctx.input, "dob"), ctx.today)
  {
    OptionalThen(NotFuture, Lookup(ctx.input, "dob"), ctx);
  }

  /** The phone reports nothing exactly when it is absent or has the phone format. */
  lemma PhoneFieldAccepts(ctx: Context)
    ensures FieldErrors(PhoneField, ctx) == [] <==> PhoneGiven(Lookup(ctx.input, "phone"))
  {
    OptionalThen(Phone, Lookup(ctx.input, "phone"), ctx);
  }

  /** The e-mail reports nothing exactly when it is absent or passes the e-mail check. */
  lemma EmailFieldAccepts(ctx: Context)
    ensures FieldErrors(EmailField, ctx) == [] <==> EmailGiven(Lookup(ctx.input, "email"), ctx.emailOk)
  {
    OptionalThen(Email, Lookup(ctx.input, "email"), ctx);
  }

  /** The validators of the patient form accept exactly the patients
      `PatientValid` describes. */
  lemma PatientFormAccepts(ctx: Context)
    ensures Validate(PatientForm, ctx) == [] <==> PatientValid(ctx.input, ctx.today, ctx.emailOk)
  {
    assert Validate(PatientForm, ctx) == [] <==>
      && FieldErrors(NameField, ctx) == [] && FieldErrors(DobField, ctx) == []
      && FieldErrors(GenderField, ctx) == [] && FieldErrors(AddressField, ctx) == []
      && FieldErrors(PhoneField, ctx) == [] && FieldErrors(EmailField, ctx) == [];
    RequiredBetweenFieldAccepts(NameField, 2, 100, ctx);
    DobFieldAccepts(ctx);
    assert FieldErrors(GenderField, ctx) == [] by {
      assert [Optional][1..] == [];
    }
    OptionalMaxFieldAccepts(AddressField, 200, ctx);
    PhoneFieldAccepts(ctx);
    EmailFieldAccepts(ctx);
  }

  // MedicalRecordForm

  const RecordDateField := FieldSpec("record_date", DateField, [DataRequired, NotFuture])
  const ReasonField := FieldSpec("reason", TextField, [Optional, Length(-1, 500)])
  const DiagnosisField := FieldSpec("diagnosis", TextField, [Optional, Length(-1, 500)])
  const TreatmentField := FieldSpec("treatment", TextField, [Optional, Length(-1, 500)])
  const NotesField := FieldSpec("notes", TextField, [Optional, Length(-1, 1000)])

  const MedicalRecordForm: seq<FieldSpec> :=
    [RecordDateField, ReasonField, DiagnosisField, TreatmentField, NotesField]

  /** A medical record is accepted when its date is given and not after
      today, reason, diagnosis and treatment have at most 500 characters
      each, and the notes at most 1000. */
  predicate MedicalRecordValid(input: map<string, Value>, today: Date) {
    && Lookup(input, "record_date").Day?
    && NotAfter(Lookup(input, "record_date"), today)
    && AtMost(Lookup(input, "reason"), 500)
    && AtMost(Lookup(input, "diagnosis"), 500)
    && AtMost(Lookup(input, "treatment"), 500)
    && AtMost(Lookup(input, "notes"), 1000)
  }

  /** The record date's messages: "required" alone when no date is given,
      the future-date message when the date is after today. */
  lemma RecordDateErrors(v: Value, ctx: Context)
    requires KindOk(DateField, v)
    ensures RunChain(RecordDateField.checks, v, ctx, []) ==
      if v.Blank? then [DataRequired]
      else if After(v.d, ctx.today) then [NotFuture]
      else []
  {
    RequiredThen(NotFuture, v, ctx);
  }

  /** A record dated today is accepted, one dated the next day is refused
      with the future-date message. */
  lemma RecordDateBoundary(ctx: Context)
    requires Valid(ctx.today) && ctx.today != Date(MaxYear, 12, 31)
    ensures RunChain(RecordDateField.checks, Day(ctx.today), ctx, []) == []
    ensures RunChain(RecordDateField.checks, Day(NextDay(ctx.today)), ctx, []) == [NotFuture]
  {
    RecordDateErrors(Day(ctx.today), ctx);
    RecordDateErrors(Day(NextDay(ctx.today)), ctx);
  }

  /** The validators of the medical-record form accept exactly the records
      `MedicalRecordValid` describes. */
  lemma MedicalRecordFormAccepts(ctx: Context)
    requires WellKinded(MedicalRecordForm, ctx.input)
    ensures Validate(MedicalRecordForm, ctx) == [] <==> MedicalRecordValid(ctx.input, ctx.today)
  {
    assert Validate(MedicalRecordForm, ctx) == [] <==>
      && FieldErrors(RecordDateField, ctx) == [] && FieldErrors(ReasonField, ctx) == []
      && FieldErrors(DiagnosisField, ctx) == [] && FieldErrors(TreatmentField, ctx) == []
      && FieldErrors(NotesField, ctx) == [];
    assert RecordDateField in MedicalRecordForm;
    RecordDateErrors(Lookup(ctx.input, "record_date"), ctx);
    OptionalMaxFieldAccepts(ReasonField, 500, ctx);
    OptionalMaxFieldAccepts(DiagnosisField, 500, ctx);
    OptionalMaxFieldAccepts(TreatmentField, 500, ctx);
    OptionalMaxFieldAccepts(NotesField, 1000, ctx);
  }

  // RegistrationForm

  const UsernameField := FieldSpec("username", TextField, [DataRequired, Length(4, 50)])
  const PasswordField := FieldSpec("password", TextField, [DataRequired, Length(6, -1)])
  const ConfirmField := FieldSpec("confirm_password", TextField, [DataRequired, EqualTo("password")])

  const RegistrationForm: seq<FieldSpec> := [UsernameField, PasswordField, ConfirmField]

  /** A registration is accepted when the username has 4 to 50 characters,
      the password at least 6, and the confirmation is the password. */
  predicate RegistrationValid(input: map<string, Value>) {
    var password := Lookup(input, "password");
    && Between(Lookup(input, "username"), 4, 50)
    && password.Text? && |password.s| >= 6
    && Lookup(input, "confirm_password") == password
  }

  /** The password reports nothing exactly when it has at least 6 characters:
      its length check has no upper bound. */
  lemma PasswordFieldAccepts(ctx: Context)
    ensures var p := Lookup(ctx.input, "password");
      FieldErrors(PasswordField, ctx) == [] <==> p.Text? && |p.s| >= 6
  {
    RequiredThen(Length(6, -1), Lookup(ctx.input, "password"), ctx);
  }

  /** The confirmation reports nothing exactly when it is given and equal to the password. */
  lemma ConfirmFieldAccepts(ctx: Context)
    ensures var c := Lookup(ctx.input, "confirm_password");
      FieldErrors(ConfirmField, ctx) == [] <==> Truthy(c) && c == Lookup(ctx.input, "password")
  {
    RequiredThen(EqualTo("password"), Lookup(ctx.input, "confirm_password"), ctx);
  }

  /** The validators of the registration form accept exactly the
      registrations `RegistrationValid` describes. */
  lemma RegistrationFormAccepts(ctx: Context)
    ensures Validate(RegistrationForm, ctx) == [] <==> RegistrationValid(ctx.input)
  {
    assert Validate(RegistrationForm, ctx) == [] <==>
      && FieldErrors(UsernameField, ctx) == [] && FieldErrors(PasswordField, ctx) == []
      && FieldErrors(ConfirmField, ctx) == [];
    RequiredBetweenFieldAccepts(UsernameField, 4, 50, ctx);
    PasswordFieldAccepts(ctx);
    ConfirmFieldAccepts(ctx);
  }

  /** A confirmation that is given but differs from the password is reported
      against the confirmation field, as a mismatch with "password". */
  lemma MismatchIsReported(ctx: Context)
    requires Truthy(Lookup(ctx.input, "confirm_password"))
    requires Lookup(ctx.input, "confirm_password") != Lookup(ctx.input, "password")
    ensures Violation("confirm_password", EqualTo("password")) in Validate(RegistrationForm, ctx)
  {
    RequiredThen(EqualTo("password"), Lookup(ctx.input, "confirm_password"), ctx);
    assert RegistrationForm[2] == ConfirmField;
    ViolationsOfFields(RegistrationForm, ctx, Violation("confirm_password", EqualTo("password")));
  }
}
