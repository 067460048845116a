/** `HashedPasswordVO`: a password hash of at least 20 characters, stored trimmed. */
module HashedPasswords {
  import opened Results
  import opened Errors
  import opened Strings
  import opened ValueObjects

  const MinLength: nat := 20
  const InvalidMessage: string := "Password hash is invalid"

  /** What the `validate` hook makes of `{ value: raw }`: the trimmed string, or the
      exception it throws. `HashedPasswordVO.create` is assumed to return this. */
  function Create(raw: string): (r: Result<string, DomainError>)
    ensures r.Err? <==> |Trim(raw)| < MinLength
    ensures r.Err? ==> r.error == ArgumentInvalid(InvalidMessage)
    ensures r.Ok? ==> r.value == Trim(raw) && |r.value| >= MinLength && Trimmed(r.value)
  {
    var value := Trim(raw);
    if |value| < MinLength then Err(ArgumentInvalid(InvalidMessage)) else Ok(value)
  }

  /** An accepted hash validates to itself. */
  lemma CreateIdempotent(raw: string)
    requires Create(raw).Ok?
    ensures Create(Create(raw).value) == Create(raw)
  {
    TrimIdempotent(raw);
  }

  /** The `validate` hook: on success it writes the trimmed value back into its
      argument; on failure it leaves the argument as it was. */
  method Validate(props: StringProps) returns (r: Result<(), DomainError>)
    modifies props
    ensures Create(old(props.value)).Ok? ==> r == Ok(()) && props.value == Create(old(props.value)).value
    ensures Create(old(props.value)).Err? ==> r == Err(Create(old(props.value)).error) && props.value == old(props.value)
  {
    var value := Trim(props.value);
    if |value| < MinLength {
      return Err(ArgumentInvalid(InvalidMessage));
    }
    props.value := value;
    return Ok(());
  }
}
