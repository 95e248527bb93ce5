/** How a form's declared validators are run. Each field carries a list of
    validators; `Field.validate` runs them in order: a `ValidationError`
    records its message and the next validator runs, a `StopValidation`
    ends the field's chain (`DataRequired` clears the field's messages and
    records its own, `Optional` clears them and records none). The form is
    valid when no field has a message. */
module Chain {
  import opened Dates
  import opened Validators

  /** The validators the forms attach, with their arguments. `Length` takes
      -1 for "no bound", as its defaults do. */
  datatype Check =
    | DataRequired
    | Optional
    | Length(min: int, max: int)
    | Phone
    | NotFuture
    | Email
    | EqualTo(other: string)

  /** Whether a field holds text (string, text-area, select, password and
      e-mail fields) or a parsed date (date fields). */
  datatype Kind = TextField | DateField

  datatype FieldSpec = FieldSpec(name: string, kind: Kind, checks: seq<Check>)

  /** One recorded message: the field and the validator that raised it. */
  datatype Violation = Violation(field: string, check: Check)

  /** What validation reads besides the field itself: the other fields of the
      form, today's date, and the e-mail syntax check, which belongs to an
      external library and is taken as given. */
  datatype Context = Context(input: map<string, Value>, today: Date, emailOk: string -> bool)

  /** A field the request did not fill in holds no data. */
  function Lookup(input: map<string, Value>, name: string): Value {
    if name in input then input[name] else Blank
  }

  /** The values WTForms produces: a date field holds a date or nothing, a
      text field holds text or nothing. */
  predicate KindOk(kind: Kind, v: Value) {
    match kind
    case TextField => !v.Day?
    case DateField => !v.Text?
  }

  predicate WellKinded(form: seq<FieldSpec>, input: map<string, Value>) {
    forall f :: f in form ==> KindOk(f.kind, Lookup(input, f.name))
  }

  /** What one validator does with a field. */
  datatype Outcome =
    | Pass          // returns normally
    | Raise         // ValidationError: message recorded, chain goes on
    | Stop          // StopValidation after clearing: its message alone, chain ends
    | StopAndClear  // StopValidation after clearing the field's messages

  /** Python truthiness of the field's data: no data and the empty string are false. */
  predicate Truthy(v: Value) {
    match v
    case Blank => false
    case Text(s) => s != ""
    case Day(_) => true
  }

  /** `field.data and len(field.data) or 0`. */
  function LengthOf(v: Value): nat {
    if v.Text? then |v.s| else 0
  }

  /** The `Length` validator raises when `length < min or max != -1 and length > max`. */
  predicate LengthOk(n: int, min: int, max: int) {
    !(n < min || (max != -1 && n > max))
  }

  function Apply(c: Check, v: Value, ctx: Context): Outcome {
    match c
    case DataRequired => if Truthy(v) then Pass else Stop
    case Optional => if Truthy(v) then Pass else StopAndClear
    case Length(min, max) => if LengthOk(LengthOf(v), min, max) then Pass else Raise
    case Phone => if PhoneOk(v) then Pass else Raise
    case NotFuture => if NotFutureOk(v, ctx.today) then Pass else Raise
    case Email => if v.Text? && !ctx.emailOk(v.s) then Raise else Pass
    case EqualTo(other) => if v == Lookup(ctx.input, other) then Pass else Raise
  }

  /** The validators that only ever raise `ValidationError`. */
  predicate NonStopping(c: Check) {
    !c.DataRequired? && !c.Optional?
  }

  /** Runs `checks` on `v` after `errors` have been recorded; the result is
      the field's messages, as the validators that raised them. */
  function RunChain(checks: seq<Check>, v: Value, ctx: Context, errors: seq<Check>): (r: seq<Check>)
    ensures forall c :: c in r ==> c in errors || c in checks
    ensures (forall i :: 0 <= i < |checks| ==> Apply(checks[i], v, ctx) == Pass) ==> r == errors
    decreases |checks|
  {
    if checks == [] then errors
    else
      match Apply(checks[0], v, ctx)
      case Pass => RunChain(checks[1..], v, ctx, errors)
      case Raise => RunChain(checks[1..], v, ctx, errors + [checks[0]])
      case Stop => [checks[0]]
      case StopAndClear => []
  }

  /** The messages of one field of the form. */
  function FieldErrors(f: FieldSpec, ctx: Context): seq<Check> {
    RunChain(f.checks, Lookup(ctx.input, f.name), ctx, [])
  }

  /** A field's messages as violations of that field. */
  function Tag(name: string, checks: seq<Check>): (r: seq<Violation>)
    ensures forall x :: x in r <==> x.field == name && x.check in checks
    decreases |checks|
  {
    if checks == [] then [] else [Violation(name, checks[0])] + Tag(name, checks[1..])
  }

  /** `form.validate()`: every field in declaration order, their messages
      collected; the form is valid when the result is empty. */
  function Validate(form: seq<FieldSpec>, ctx: Context): (r: seq<Violation>)
    ensures r == [] <==> forall f :: f in form ==> FieldErrors(f, ctx) == []
    decreases |form|
  {
    if form == [] then []
    else Tag(form[0].name, FieldErrors(form[0], ctx)) + Validate(form[1..], ctx)
  }

  /** Every recorded violation names a field of the form and a validator that
      raised on it, and every such validator is recorded. */
  lemma {:induction false} ViolationsOfFields(form: seq<FieldSpec>, ctx: Context, x: Violation)
    ensures x in Validate(form, ctx) <==>
      exists i :: 0 <= i < |form| && x.field == form[i].name && x.check in FieldErrors(form[i], ctx)
    decreases |form|
  {
    if form != [] {
      ViolationsOfFields(form[1..], ctx, x);
      if exists i :: 1 <= i < |form| && x.field == form[i].name && x.check in FieldErrors(form[i], ctx) {
        var i :| 1 <= i < |form| && x.field == form[i].name && x.check in FieldErrors(form[i], ctx);
        assert form[1..][i - 1] == form[i];
      }
    }
  }

  /** A chain of `DataRequired` and one validator that only raises: a field
      without data reports that it is required and nothing else; otherwise
      the second validator decides. */
  lemma RequiredThen(c: Check, v: Value, ctx: Context)
    requires NonStopping(c)
    ensures RunChain([DataRequired, c], v, ctx, []) ==
      if !Truthy(v) then [DataRequired]
      else if Apply(c, v, ctx) == Pass then []
      else [c]
  {
    assert [DataRequired, c][1..] == [c];
    assert [c][1..] == [];
  }

  /** `DataRequired` on a field without data leaves its own message alone,
      whatever the validators before it recorded. */
  lemma RequiredClearsEarlier(rest: seq<Check>, v: Value, ctx: Context, errors: seq<Check>)
    requires !Truthy(v)
    ensures RunChain([DataRequired] + rest, v, ctx, errors) == [DataRequired]
  {
    assert ([DataRequired] + rest)[0] == DataRequired;
  }

  /** A chain of `Optional` and one validator that only raises: a field
      without data reports nothing, whatever the second validator would say. */
  lemma OptionalThen(c: Check, v: Value, ctx: Context)
    requires NonStopping(c)
    ensures RunChain([Optional, c], v, ctx, []) ==
      if !Truthy(v) || Apply(c, v, ctx) == Pass then [] else [c]
  {
    assert [Optional, c][1..] == [c];
    assert [c][1..] == [];
  }
}
