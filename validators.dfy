/**
 * Validators: the release-year check (reviews/validators.py).
 *
 * The clock is not part of the model: the current calendar year is a parameter.
 */
module Validators {
  import opened Tables

  /** The ValidationError `validate_year` raises, carrying the offending value. */
  datatype YearError = YearNotPast(value: int)

  /** `validate_year`: only years before the current one pass; the error names the
      value. A check with no effect on anything: it returns the verdict only. */
  function ValidateYear(value: int, currentYear: int): (r: Option<YearError>)
    ensures r.Some? <==> value >= currentYear
    ensures r.Some? ==> r.value == YearNotPast(value)
  {
    if value >= currentYear then Some(YearNotPast(value)) else None
  }

  /** The current year itself is refused: the boundary is exclusive. */
  lemma CurrentYearRejected(currentYear: int)
    ensures ValidateYear(currentYear, currentYear) == Some(YearNotPast(currentYear))
  {
  }
}
