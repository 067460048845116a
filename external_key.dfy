/** `ExternalKeyVO`: a UUID version 4 in its 8-4-4-4-12 hexadecimal form, letters of
    either case, stored trimmed but otherwise as given. */
module ExternalKeys {
  import opened Results
  import opened Errors
  import opened Strings
  import opened ValueObjects

  const InvalidMessage: string := "ExternalKey must be a valid UUID v4"

  /** `[0-9a-f]` under the case-insensitive flag. */
  predicate HexDigit(c: char)
  {
    ('0' <= c <= '9') || ('a' <= c <= 'f') || ('A' <= c <= 'F')
  }

  predicate AllHex(s: string)
  {
    forall k :: 0 <= k < |s| ==> HexDigit(s[k])
  }

  /** `[89ab]` under the case-insensitive flag: the RFC 4122 variant digit. */
  predicate VariantDigit(c: char)
  {
    c == '8' || c == '9' || c == 'a' || c == 'b' || c == 'A' || c == 'B'
  }

  /** The pattern, group by group:
      `^[0-9a-f]{8}-[0-9a-f]{4}-4[0-9a-f]{3}-[89ab][0-9a-f]{3}-[0-9a-f]{12}$` with
      the `i` flag. */
  predicate IsUuidV4(s: string)
  {
    |s| == 36
    && AllHex(s[0..8]) && s[8] == '-'
    && AllHex(s[9..13]) && s[13] == '-'
    && s[14] == '4' && AllHex(s[15..18]) && s[18] == '-'
    && VariantDigit(s[19]) && AllHex(s[20..23]) && s[23] == '-'
    && AllHex(s[24..36])
  }

  /** What the pattern demands of the character at position `k`. */
  predicate PositionOk(k: int, c: char)
  {
    if k == 8 || k == 13 || k == 18 || k == 23 then c == '-'
    else if k == 14 then c == '4'
    else if k == 19 then VariantDigit(c)
    else HexDigit(c)
  }

  /** The pattern is a condition on each of 36 positions: hyphens at 8, 13, 18 and 23,
      the version digit `4` at 14, the variant digit at 19 and a hexadecimal digit
      everywhere else. */
  lemma PositionalForm(s: string)
    ensures IsUuidV4(s) <==> |s| == 36 && forall k :: 0 <= k < |s| ==> PositionOk(k, s[k])
  {
    if |s| == 36 {
      if IsUuidV4(s) {
        forall k | 0 <= k < |s| ensures PositionOk(k, s[k]) {
          if k < 8 { assert s[0..8][k] == s[k]; }
          else if 9 <= k < 13 { assert s[9..13][k - 9] == s[k]; }
          else if 15 <= k < 18 { assert s[15..18][k - 15] == s[k]; }
          else if 20 <= k < 23 { assert s[20..23][k - 20] == s[k]; }
          else if 24 <= k { assert s[24..36][k - 24] == s[k]; }
        }
      }
      if forall k :: 0 <= k < |s| ==> PositionOk(k, s[k]) {
        assert AllHex(s[0..8]) && AllHex(s[9..13]) && AllHex(s[15..18]);
        assert AllHex(s[20..23]) && AllHex(s[24..36]);
      }
    }
  }

  /** An accepted key holds no whitespace, so trimming it again changes nothing. */
  lemma UuidHasNoWhitespace(s: string)
    requires IsUuidV4(s)
    ensures NoWhitespace(s)
  {
    PositionalForm(s);
    assert forall k :: 0 <= k < |s| ==> PositionOk(k, s[k]);
  }

  /** What the `validate` hook makes of `{ value: raw }`: the trimmed string when it
      matches the pattern, letter case kept. `ExternalKeyVO.create` is assumed to
      return this. */
  function Create(raw: string): (r: Result<string, DomainError>)
    ensures r.Err? <==> !IsUuidV4(Trim(raw))
    ensures r.Err? ==> r.error == ArgumentInvalid(InvalidMessage)
    ensures r.Ok? ==> r.value == Trim(raw) && |r.value| == 36
  {
    var value := Trim(raw);
    if !IsUuidV4(value) then Err(ArgumentInvalid(InvalidMessage)) else Ok(value)
  }

  /** A key in the pattern, with or without surrounding whitespace, is accepted
      exactly as it stands: upper-case and lower-case spellings stay different
      values. */
  lemma AcceptsUuidUnchanged(s: string, pre: string, post: string)
    requires IsUuidV4(s) && AllWhitespace(pre) && AllWhitespace(post)
    ensures Create(pre + s + post) == Ok(s)
  {
    UuidHasNoWhitespace(s);
    TrimPadded(pre, s, post);
  }

  /** Re-creating from an accepted key gives that key back. */
  lemma CreateIdempotent(raw: string)
    requires Create(raw).Ok?
    ensures Create(Create(raw).value) == Create(raw)
  {
    TrimIdempotent(raw);
  }

  /** `ExternalKeyVO.generate()`: wraps a UUID from `crypto.randomUUID()`, passed in
      as `uuid`, through the validating constructor. */
  function Generate(uuid: string): (r: Result<string, DomainError>)
    ensures r == Create(uuid)
  {
    Create(uuid)
  }

  /** A version 4 UUID, as `crypto.randomUUID()` returns one, is accepted unchanged,
      so generating a key never fails. */
  lemma GenerateSucceeds(uuid: string)
    requires IsUuidV4(uuid)
    ensures Generate(uuid) == Ok(uuid)
  {
    UuidHasNoWhitespace(uuid);
  }

  /** The `validate` hook: on success it writes the trimmed key back into its
      argument; on failure it leaves the argument as it was. */
  method Validate(props: StringProps) returns (r: Result<(), DomainError>)
    modifies props
    ensures Create(old(props.value)).Ok? ==> r == Ok(()) && props.value == Create(old(props.value)).value
    ensures Create(old(props.value)).Err? ==> r == Err(Create(old(props.value)).error) && props.value == old(props.value)
  {
    var raw := Trim(props.value);
    if !IsUuidV4(raw) {
      return Err(ArgumentInvalid(InvalidMessage));
    }
    props.value := raw;
    return Ok(());
  }
}
