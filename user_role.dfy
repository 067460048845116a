/** `UserRoleVO`: one of the `UserRole` enum values, taken exactly as given. */
module UserRoles {
  import opened Results
  import opened Errors

  /** `Object.values(UserRole)`. */
  const Roles: seq<string> := ["STUDENT", "TEACHER", "SECRETARY", "ADMIN"]
  const InvalidMessage: string := "Invalid user role"

  /** What the `validate` hook makes of `{ value: raw }`: the hook only checks, so an
      accepted role is stored unchanged. `UserRoleVO.create` is assumed to return this. */
  function Create(raw: string): (r: Result<string, DomainError>)
    ensures r.Ok? <==> raw == "STUDENT" || raw == "TEACHER" || raw == "SECRETARY" || raw == "ADMIN"
    ensures r.Ok? ==> r.value == raw
    ensures r.Err? ==> r.error == ArgumentInvalid(InvalidMessage)
  {
    if raw in Roles then Ok(raw) else Err(ArgumentInvalid(InvalidMessage))
  }

  /** The check neither trims nor folds case. */
  lemma NoNormalisation()
    ensures Create("student").Err? && Create(" ADMIN").Err?
    ensures Create("ADMIN") == Ok("ADMIN")
  {
  }

  lemma CreateIdempotent(raw: string)
    requires Create(raw).Ok?
    ensures Create(Create(raw).value) == Create(raw)
  {
  }
}
