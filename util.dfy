/**
 * `ensure_date` (stwno_api/util.py): the argument of a menu query is a
 * datetime, a date or anything else; only the first two name a day.
 */
module DateUtil {
  import opened Common
  import Opening

  /** The kinds of value the function is called with: a datetime in seconds, a day number, or other text. */
  datatype Moment = DateTime(seconds: int) | Date(day: int) | Other(text: string)

  /**
   * A datetime becomes its date, a date stays as it is, anything else is a
   * `ValueError`. A datetime is also a date in Python, so the datetime test
   * has to come first for the time of day to be dropped.
   */
  function EnsureDate(m: Moment): (r: Result<Moment>)
    ensures m.DateTime? ==> r == Ok(Date(Opening.DayOf(m.seconds)))
    ensures m.Date? ==> r == Ok(m)
    ensures m.Other? ==> r.Err? && r.error.ValueError?
    ensures r.Ok? ==> r.value.Date?
  {
    match m
    case DateTime(t) => Ok(Date(Opening.DayOf(t)))
    case Date(_) => Ok(m)
    case Other(s) => Err(ValueError("'" + s + "' can't be converted to a date"))
  }

  /** The day a moment names, for callers that go on with a day number. */
  function DayOfMoment(m: Moment): (r: Result<int>)
    ensures r.Ok? <==> !m.Other?
    ensures m.DateTime? ==> r == Ok(Opening.DayOf(m.seconds))
    ensures m.Date? ==> r == Ok(m.day)
  {
    match EnsureDate(m)
    case Err(e) => Err(e)
    case Ok(d) => Ok(d.day)
  }

  /** Python truthiness of a moment: dates and datetimes are always true, text only when it is not empty. */
  predicate Truthy(m: Moment)
  {
    !m.Other? || m.text != ""
  }

  /**
   * `day or dtm.date.today()`: a missing or falsy day means today, any other
   * value is passed on unchanged.
   */
  function OrToday(day: Option<Moment>, today: int): (r: Moment)
    ensures Truthy(r)
    ensures day.Some? && Truthy(day.value) ==> r == day.value
    ensures !(day.Some? && Truthy(day.value)) ==> r == Date(today)
  {
    if day.Some? && Truthy(day.value) then day.value else Date(today)
  }

  /** Applying the conversion to its own result changes nothing: every result is a plain date. */
  lemma EnsureDateIdempotent(m: Moment)
    ensures EnsureDate(m).Ok? ==> EnsureDate(EnsureDate(m).value) == EnsureDate(m)
  {
  }
}
