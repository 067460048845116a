/** `ExternalIdVO`, the user name: any string that is not blank, stored trimmed. */
module ExternalIds {
  import opened JsValues
  import opened Results
  import opened Errors
  import opened Strings
  import Guard

  /** `ExternalIdVO.create`. */
  function Create(id: string): (r: Result<string, DomainError>)
    ensures r.Err? <==> AllWhitespace(id)
    ensures r.Err? ==> r.error == InvalidExternalId(id)
    ensures r.Ok? ==> r.value == Trim(id) && r.value != [] && Trimmed(r.value)
  {
    if Guard.IsEmpty(JsString(id)) then Err(InvalidExternalId(id))
    else Ok(Trim(id))
  }

  /** Re-creating from an accepted value gives that value back. */
  lemma CreateIdempotent(id: string)
    requires Create(id).Ok?
    ensures Create(Create(id).value) == Create(id)
  {
    TrimIdempotent(id);
  }
}
