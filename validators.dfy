/** The two hand-written validators of the forms: the phone format check and
    the not-in-the-future date check. Each answers whether the validator lets
    the field through; `false` stands for the `ValidationError` it raises. */
module Validators {
  import opened Dates
  import PhoneNumber

  /** What a field holds once WTForms has processed the submitted form:
      `Blank` when nothing usable was submitted (no value, or one WTForms
      treats as empty), the submitted text, or a parsed date. */
  datatype Value = Blank | Text(s: string) | Day(d: Date)

  /** `validate_phone`: an empty value passes, because the check is guarded by
      the field's truthiness; any other text must match the whole pattern. */
  function PhoneOk(data: Value): (ok: bool)
    ensures data.Blank? ==> ok
    ensures data.Text? ==> (ok <==> data.s == "" || PhoneNumber.InLanguage(data.s))
  {
    match data
    case Text(s) => PhoneNumber.FullMatchIff(s); s == "" || PhoneNumber.FullMatch(s)
    case _ => true
  }

  /** `validate_dob_not_future`: no date passes; a date fails only when it is
      strictly later than `today` (the value of `date.today()`). */
  function NotFutureOk(data: Value, today: Date): (ok: bool)
    ensures !data.Day? ==> ok
    ensures data.Day? && Valid(data.d) && Valid(today) ==> (ok <==> Ordinal(data.d) <= Ordinal(today))
  {
    match data
    case Day(d) =>
      if Valid(d) && Valid(today) then AfterIsChronological(d, today); !After(d, today)
      else !After(d, today)
    case _ => true
  }

  /** The boundary of the date check: today itself passes, the next day fails. */
  lemma TodayIsTheLastDayAccepted(today: Date)
    requires Valid(today) && today != Date(MaxYear, 12, 31)
    ensures NotFutureOk(Day(today), today)
    ensures !NotFutureOk(Day(NextDay(today)), today)
  {
  }
}
