/** `EmailVO`: an address trimmed and lower-cased, then checked against
    `^[^\s@]+@[^\s@]+\.[^\s@]+$`. */
module Emails {
  import opened Results
  import opened Errors
  import opened Strings
  import opened ValueObjects

  const InvalidMessage: string := "Invalid email format"

  /** `[^\s@]`. */
  predicate Atom(c: char)
  {
    !IsWhitespace(c) && c != '@'
  }

  predicate AllAtoms(s: string)
  {
    forall k :: 0 <= k < |s| ==> Atom(s[k])
  }

  /** The pattern, position by position: one `@` with at least one character before
      it, then a `.` with at least one character on either side, and every other
      character an atom. */
  predicate MatchesPattern(s: string)
  {
    exists at, dot :: 0 < at && at + 1 < dot && dot + 1 < |s| && s[at] == '@' && s[dot] == '.'
      && forall k :: 0 <= k < |s| && k != at ==> Atom(s[k])
  }

  /** The pattern as the regular expression reads: three non-empty runs of atoms,
      joined by `@` and `.`. */
  ghost predicate Decomposes(s: string)
  {
    exists local: string, host: string, top: string ::
      s == local + "@" + host + "." + top
      && local != [] && host != [] && top != []
      && AllAtoms(local) && AllAtoms(host) && AllAtoms(top)
  }

  /** The position-wise check and the regular expression accept the same strings. */
  lemma PatternIsDecomposition(s: string)
    ensures MatchesPattern(s) <==> Decomposes(s)
  {
    if MatchesPattern(s) {
      PatternDecomposes(s);
    }
    if Decomposes(s) {
      DecompositionMatches(s);
    }
  }

  lemma PatternDecomposes(s: string)
    requires MatchesPattern(s)
    ensures Decomposes(s)
  {
    var at, dot :| 0 < at && at + 1 < dot && dot + 1 < |s| && s[at] == '@' && s[dot] == '.'
      && forall k :: 0 <= k < |s| && k != at ==> Atom(s[k]);
    var local, host, top := s[..at], s[at + 1..dot], s[dot + 1..];
    assert s == local + "@" + host + "." + top;
    assert AllAtoms(local) by {
      forall k | 0 <= k < |local| ensures Atom(local[k]) { assert local[k] == s[k]; }
    }
    assert AllAtoms(host) by {
      forall k | 0 <= k < |host| ensures Atom(host[k]) { assert host[k] == s[at + 1 + k]; }
    }
    assert AllAtoms(top) by {
      forall k | 0 <= k < |top| ensures Atom(top[k]) { assert top[k] == s[dot + 1 + k]; }
    }
  }

  lemma DecompositionMatches(s: string)
    requires Decomposes(s)
    ensures MatchesPattern(s)
  {
    var local: string, host: string, top: string :|
      s == local + "@" + host + "." + top
      && local != [] && host != [] && top != []
      && AllAtoms(local) && AllAtoms(host) && AllAtoms(top);
    var at, dot := |local|, |local| + 1 + |host|;
    assert s[at] == '@' && s[dot] == '.';
    forall k | 0 <= k < |s| && k != at ensures Atom(s[k]) {
      if k < at {
        assert s[k] == local[k];
      } else if k < dot {
        assert s[k] == host[k - at - 1];
      } else if k > dot {
        assert s[k] == top[k - dot - 1];
      }
    }
  }

  /** What the `validate` hook makes of `{ value: raw }`: the trimmed, lower-cased
      address, or the exception it throws. `EmailVO.create` is assumed to return this. */
  function Create(raw: string): (r: Result<string, DomainError>)
    ensures r.Ok? <==> MatchesPattern(ToLowerAscii(Trim(raw)))
    ensures r.Ok? ==> r.value == ToLowerAscii(Trim(raw))
    ensures r.Err? ==> r.error == ArgumentInvalid(InvalidMessage)
  {
    var value := ToLowerAscii(Trim(raw));
    if MatchesPattern(value) then Ok(value) else Err(ArgumentInvalid(InvalidMessage))
  }

  /** An accepted address holds exactly one `@` and no whitespace. */
  lemma AcceptedShape(raw: string)
    requires Create(raw).Ok?
    ensures NoWhitespace(Create(raw).value)
    ensures exists at :: 0 <= at < |Create(raw).value| && Create(raw).value[at] == '@'
              && forall k :: 0 <= k < |Create(raw).value| && Create(raw).value[k] == '@' ==> k == at
  {
    var v := Create(raw).value;
    OneAt(v);
  }

  lemma OneAt(v: string)
    requires MatchesPattern(v)
    ensures NoWhitespace(v)
    ensures exists at :: 0 <= at < |v| && v[at] == '@' && forall k :: 0 <= k < |v| && v[k] == '@' ==> k == at
  {
    var at, dot :| 0 < at && at + 1 < dot && dot + 1 < |v| && v[at] == '@' && v[dot] == '.'
      && forall k :: 0 <= k < |v| && k != at ==> Atom(v[k]);
    assert forall k :: 0 <= k < |v| && v[k] == '@' ==> k == at;
  }

  /** Normalising an accepted address again changes nothing. */
  lemma CreateIdempotent(raw: string)
    requires Create(raw).Ok?
    ensures Create(Create(raw).value) == Create(raw)
  {
    var v := Create(raw).value;
    OneAt(v);
    assert Trim(v) == v;
    LowerAsciiPreserves(Trim(raw));
  }

  /** The `validate` hook: on success it writes the normalised address back into its
      argument; on failure it leaves the argument as it was. */
  method Validate(props: StringProps) returns (r: Result<(), DomainError>)
    modifies props
    ensures Create(old(props.value)).Ok? ==> r == Ok(()) && props.value == Create(old(props.value)).value
    ensures Create(old(props.value)).Err? ==> r == Err(Create(old(props.value)).error) && props.value == old(props.value)
  {
    var value := ToLowerAscii(Trim(props.value));
    if !MatchesPattern(value) {
      return Err(ArgumentInvalid(InvalidMessage));
    }
    props.value := value;
    return Ok(());
  }
}
