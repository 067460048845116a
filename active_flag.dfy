/** `ActiveFlagVO`: a boolean saying whether an account is active. */
module ActiveFlags {
  import opened Results
  import opened Errors

  datatype ActiveFlag = ActiveFlag(value: bool)

  /** `create` never fails. */
  function Create(value: bool): (r: Result<ActiveFlag, DomainError>)
    ensures r.Ok? && r.value.value == value
  {
    Ok(ActiveFlag(value))
  }

  function Active(): ActiveFlag
  {
    ActiveFlag(true)
  }

  function Inactive(): ActiveFlag
  {
    ActiveFlag(false)
  }

  predicate IsActive(f: ActiveFlag)
  {
    f.value == true
  }

  predicate IsInactive(f: ActiveFlag)
  {
    f.value == false
  }

  /** `active()` is active, `inactive()` is inactive, and every flag is exactly one of
      the two. */
  lemma FlagLaws(f: ActiveFlag)
    ensures IsActive(Active()) && IsInactive(Inactive())
    ensures IsActive(f) != IsInactive(f)
    ensures f == Active() || f == Inactive()
  {
  }
}
