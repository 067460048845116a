/** `NameVO`, a first or last name: trimmed, at least two characters long, written
    with Latin-1 letters, apostrophes, spaces and hyphens, and stored in upper case. */
module Names {
  import opened Results
  import opened Errors
  import opened Strings
  import opened ValueObjects

  const MinLength: nat := 2
  const TooShortMessage: string := "Name must be at least 2 characters"
  const InvalidCharactersMessage: string := "Name contains invalid characters"

  /** `[a-zA-ZÀ-ÖØ-öø-ÿ' -]`, the character class of the pattern. */
  predicate PatternChar(c: char)
  {
    ('a' <= c <= 'z') || ('A' <= c <= 'Z')
    || ('À' <= c <= 'Ö') || ('Ø' <= c <= 'ö') || ('ø' <= c <= 'ÿ')
    || c == '\'' || c == ' ' || c == '-'
  }

  /** The character class widened by `Ÿ` (U+0178), the upper case of `ÿ`. */
  predicate NameChar(c: char)
  {
    PatternChar(c) || c == 'Ÿ'
  }

  /** `toUpperCase` of one character of the class: ASCII and Latin-1 small letters move
      to their capitals, `ß` becomes `SS` and `ÿ` becomes `Ÿ`; everything else is
      already upper case. */
  function UpperChar(c: char): (u: string)
    ensures |u| >= 1
  {
    if ('a' <= c <= 'z') || ('à' <= c <= 'þ' && c != '÷') then [(c as int - 32) as char]
    else if c == 'ß' then "SS"
    else if c == 'ÿ' then ['Ÿ']
    else [c]
  }

  /** `toUpperCase`, character by character. */
  function ToUpper(s: string): (r: string)
    ensures |r| >= |s|
  {
    if s == [] then [] else UpperChar(s[0]) + ToUpper(s[1..])
  }

  /** The outcome of the `validate` hook for a given character class: the length check
      comes first, then the character check, then upper-casing. */
  function Check(raw: string, allowed: char -> bool): (r: Result<string, DomainError>)
    ensures r == Err(ArgumentInvalid(TooShortMessage)) <==> |Trim(raw)| < MinLength
    ensures r == Err(ArgumentInvalid(InvalidCharactersMessage))
            <==> |Trim(raw)| >= MinLength && exists k :: 0 <= k < |Trim(raw)| && !allowed(Trim(raw)[k])
    ensures r.Ok? <==> |Trim(raw)| >= MinLength && forall k :: 0 <= k < |Trim(raw)| ==> allowed(Trim(raw)[k])
    ensures r.Ok? ==> r.value == ToUpper(Trim(raw))
  {
    var value := Trim(raw);
    if |value| < MinLength then Err(ArgumentInvalid(TooShortMessage))
    else if exists k :: 0 <= k < |value| && !allowed(value[k]) then Err(ArgumentInvalid(InvalidCharactersMessage))
    else Ok(ToUpper(value))
  }

  /** `NameVO`'s hook, with the pattern's own character class: the name must be at
      least two characters long after trimming and every character must be in the
      class; the stored name is the trimmed name in upper case. */
  function Create(raw: string): Result<string, DomainError>
  {
    Check(raw, PatternChar)
  }

  /** The hook with the class widened by `Ÿ`, so that every name it stores is accepted
      again; not the class `NameVO` uses. */
  function CreateWidened(raw: string): Result<string, DomainError>
  {
    Check(raw, NameChar)
  }

  // ---------------------------------------------------------------------------
  // Upper-casing

  /** Upper case already: upper-casing leaves the character as it is. */
  predicate IsUpper(c: char)
  {
    UpperChar(c) == [c]
  }

  lemma UpperCharOfNameChar(c: char)
    requires NameChar(c)
    ensures forall j :: 0 <= j < |UpperChar(c)| ==> NameChar(UpperChar(c)[j]) && IsUpper(UpperChar(c)[j])
    ensures PatternChar(c) && c != 'ÿ' ==> forall j :: 0 <= j < |UpperChar(c)| ==> PatternChar(UpperChar(c)[j]) && UpperChar(c)[j] != 'ÿ'
  {
  }

  lemma UpperCharKeepsNonWhitespace(c: char)
    requires NameChar(c) && !IsWhitespace(c)
    ensures !IsWhitespace(UpperChar(c)[0]) && !IsWhitespace(UpperChar(c)[|UpperChar(c)| - 1])
  {
  }

  lemma {:induction false} ToUpperAppend(a: string, b: string)
    ensures ToUpper(a + b) == ToUpper(a) + ToUpper(b)
  {
    if a == [] {
      assert a + b == b;
    } else {
      assert (a + b)[0] == a[0];
      assert (a + b)[1..] == a[1..] + b;
      ToUpperAppend(a[1..], b);
      calc {
        ToUpper(a + b);
        UpperChar(a[0]) + ToUpper(a[1..] + b);
        UpperChar(a[0]) + (ToUpper(a[1..]) + ToUpper(b));
        (UpperChar(a[0]) + ToUpper(a[1..])) + ToUpper(b);
      }
    }
  }

  /** Upper-casing the upper case of a character of the class changes nothing. */
  lemma UpperCharIsUpper(c: char)
    requires NameChar(c)
    ensures ToUpper(UpperChar(c)) == UpperChar(c)
  {
    var u := UpperChar(c);
    UpperCharOfNameChar(c);
    if c == 'ß' {
      assert ToUpper(u) == UpperChar('S') + ToUpper(u[1..]);
      assert ToUpper(u[1..]) == UpperChar('S') + ToUpper([]);
    } else {
      assert |u| == 1;
      assert ToUpper(u) == UpperChar(u[0]) + ToUpper([]);
    }
  }

  /** Upper-casing a string of the class gives a string of the class that upper-casing
      leaves alone; from the pattern's own class without `ÿ`, it stays inside that
      class. */
  lemma ToUpperOfNameChars(s: string)
    requires forall k :: 0 <= k < |s| ==> NameChar(s[k])
    ensures forall k :: 0 <= k < |ToUpper(s)| ==> NameChar(ToUpper(s)[k])
    ensures ToUpper(ToUpper(s)) == ToUpper(s)
    ensures (forall k :: 0 <= k < |s| ==> PatternChar(s[k]) && s[k] != 'ÿ')
            ==> forall k :: 0 <= k < |ToUpper(s)| ==> PatternChar(ToUpper(s)[k])
  {
    ToUpperStaysInClass(s);
    ToUpperIsUpper(s);
    if forall k :: 0 <= k < |s| ==> PatternChar(s[k]) && s[k] != 'ÿ' {
      ToUpperStaysInPattern(s);
    }
  }

  lemma {:induction false} ToUpperStaysInClass(s: string)
    requires forall k :: 0 <= k < |s| ==> NameChar(s[k])
    ensures forall k :: 0 <= k < |ToUpper(s)| ==> NameChar(ToUpper(s)[k])
  {
    if s != [] {
      var u := UpperChar(s[0]);
      var rest := s[1..];
      assert forall k :: 0 <= k < |rest| ==> rest[k] == s[k + 1];
      UpperCharOfNameChar(s[0]);
      ToUpperStaysInClass(rest);
      var t := ToUpper(rest);
      var r := ToUpper(s);
      assert r == u + t;
      forall k | 0 <= k < |r| ensures NameChar(r[k]) {
        if k < |u| { assert r[k] == u[k]; } else { assert r[k] == t[k - |u|]; }
      }
    }
  }

  lemma {:induction false} ToUpperIsUpper(s: string)
    requires forall k :: 0 <= k < |s| ==> NameChar(s[k])
    ensures ToUpper(ToUpper(s)) == ToUpper(s)
  {
    if s != [] {
      var rest := s[1..];
      assert forall k :: 0 <= k < |rest| ==> rest[k] == s[k + 1];
      UpperCharIsUpper(s[0]);
      ToUpperIsUpper(rest);
      ToUpperAppend(UpperChar(s[0]), ToUpper(rest));
    }
  }

  lemma {:induction false} ToUpperStaysInPattern(s: string)
    requires forall k :: 0 <= k < |s| ==> PatternChar(s[k]) && s[k] != 'ÿ'
    ensures forall k :: 0 <= k < |ToUpper(s)| ==> PatternChar(ToUpper(s)[k])
  {
    if s != [] {
      var u := UpperChar(s[0]);
      var rest := s[1..];
      assert forall k :: 0 <= k < |rest| ==> rest[k] == s[k + 1];
      UpperCharOfNameChar(s[0]);
      ToUpperStaysInPattern(rest);
      var t := ToUpper(rest);
      var r := ToUpper(s);
      assert r == u + t;
      forall k | 0 <= k < |r| ensures PatternChar(r[k]) {
        if k < |u| { assert r[k] == u[k]; } else { assert r[k] == t[k - |u|]; }
      }
    }
  }

  lemma ToUpperFirst(s: string)
    requires s != []
    ensures ToUpper(s)[0] == UpperChar(s[0])[0]
  {
  }

  lemma ToUpperLast(s: string)
    requires s != []
    ensures ToUpper(s)[|ToUpper(s)| - 1] == UpperChar(s[|s| - 1])[|UpperChar(s[|s| - 1])| - 1]
  {
    var init := s[..|s| - 1];
    assert s == init + [s[|s| - 1]];
    ToUpperAppend(init, [s[|s| - 1]]);
    assert ToUpper([s[|s| - 1]]) == UpperChar(s[|s| - 1]) + ToUpper([]);
  }

  /** Upper-casing a trimmed string of the class keeps it trimmed. */
  lemma ToUpperKeepsTrimmed(s: string)
    requires Trimmed(s) && s != []
    requires NameChar(s[0]) && NameChar(s[|s| - 1])
    ensures Trimmed(ToUpper(s))
  {
    ToUpperFirstNotWhitespace(s);
    ToUpperLastNotWhitespace(s);
  }

  lemma ToUpperFirstNotWhitespace(s: string)
    requires s != [] && NameChar(s[0]) && !IsWhitespace(s[0])
    ensures !IsWhitespace(ToUpper(s)[0])
  {
    UpperCharKeepsNonWhitespace(s[0]);
    ToUpperFirst(s);
  }

  lemma ToUpperLastNotWhitespace(s: string)
    requires s != [] && NameChar(s[|s| - 1]) && !IsWhitespace(s[|s| - 1])
    ensures !IsWhitespace(ToUpper(s)[|ToUpper(s)| - 1])
  {
    UpperCharKeepsNonWhitespace(s[|s| - 1]);
    ToUpperLast(s);
  }

  /** With the widened class, a stored name is accepted again, unchanged: normalising
      is idempotent for every accepted input. */
  lemma CreateWidenedIdempotent(raw: string)
    requires CreateWidened(raw).Ok?
    ensures CreateWidened(CreateWidened(raw).value) == CreateWidened(raw)
  {
    var v := Trim(raw);
    var u := ToUpper(v);
    assert forall k :: 0 <= k < |v| ==> NameChar(v[k]);
    ToUpperOfNameChars(v);
    ToUpperKeepsTrimmed(v);
    TrimmedIsFixedPoint(u);
    assert !exists k :: 0 <= k < |Trim(u)| && !NameChar(Trim(u)[k]);
  }

  /** As written, a name without `ÿ` is stored in a form the hook accepts again,
      unchanged; ASCII names in particular. */
  lemma CreateIdempotentWithoutSmallYDiaeresis(raw: string)
    requires Create(raw).Ok? && 'ÿ' !in Trim(raw)
    ensures Create(Create(raw).value) == Create(raw)
  {
    var v := Trim(raw);
    var u := ToUpper(v);
    assert forall k :: 0 <= k < |v| ==> PatternChar(v[k]) && v[k] != 'ÿ';
    ToUpperOfNameChars(v);
    ToUpperKeepsTrimmed(v);
    TrimmedIsFixedPoint(u);
    assert forall k :: 0 <= k < |u| ==> PatternChar(u[k]);
    assert !exists k :: 0 <= k < |Trim(u)| && !PatternChar(Trim(u)[k]);
  }

  /** Upper-casing turns every `ÿ` into `Ÿ`, so one `ÿ` leaves a `Ÿ` behind. */
  lemma {:induction false} ToUpperOfSmallYDiaeresis(s: string)
    requires 'ÿ' in s
    ensures 'Ÿ' in ToUpper(s)
  {
    assert ToUpper(s) == UpperChar(s[0]) + ToUpper(s[1..]);
    if s[0] == 'ÿ' {
      assert ToUpper(s)[0] == 'Ÿ';
    } else {
      assert s == [s[0]] + s[1..];
      ToUpperOfSmallYDiaeresis(s[1..]);
    }
  }

  /** As written, every accepted name holding `ÿ` is stored in a form the same hook
      rejects: the stored name holds `Ÿ`, which the class does not admit. */
  lemma CreateRejectsStoredSmallYDiaeresis(raw: string)
    requires Create(raw).Ok? && 'ÿ' in Trim(raw)
    ensures Create(Create(raw).value) == Err(ArgumentInvalid(InvalidCharactersMessage))
  {
    var v := Trim(raw);
    var u := ToUpper(v);
    ToUpperKeepsTrimmed(v);
    TrimmedIsFixedPoint(u);
    ToUpperOfSmallYDiaeresis(v);
    var k :| 0 <= k < |u| && u[k] == 'Ÿ';
    assert !PatternChar(Trim(u)[k]);
  }

  lemma ToUpperExamples()
    ensures ToUpper("Aÿ") == "AŸ" && ToUpper("AŸ") == "AŸ"
  {
    assert ToUpper("Aÿ") == UpperChar('A') + ToUpper("ÿ");
    assert ToUpper("ÿ") == UpperChar('ÿ') + ToUpper([]);
    assert ToUpper("AŸ") == UpperChar('A') + ToUpper("Ÿ");
    assert ToUpper("Ÿ") == UpperChar('Ÿ') + ToUpper([]);
  }

  lemma TrimExamples()
    ensures Trim("Aÿ") == "Aÿ" && Trim("AŸ") == "AŸ"
  {
    TrimmedIsFixedPoint("Aÿ");
    TrimmedIsFixedPoint("AŸ");
  }

  /** As written, `Aÿ` is accepted and stored as `AŸ`, which the same hook then rejects:
      the stored name cannot be loaded again. */
  lemma CreateRejectsItsOwnOutput()
    ensures Create("Aÿ") == Ok("AŸ")
    ensures Create("AŸ") == Err(ArgumentInvalid(InvalidCharactersMessage))
    ensures CreateWidened("AŸ") == Ok("AŸ")
  {
    TrimExamples();
    ToUpperExamples();
    var v := "Aÿ";
    assert forall k :: 0 <= k < |v| ==> PatternChar(v[k]);
    var w := "AŸ";
    assert !PatternChar(w[1]);
    assert forall k :: 0 <= k < |w| ==> NameChar(w[k]);
  }

  /** The `validate` hook: on success it writes the upper-cased name back into its
      argument; on failure it leaves the argument as it was. */
  method Validate(props: StringProps) returns (r: Result<(), DomainError>)
    modifies props
    ensures Create(old(props.value)).Ok? ==> r == Ok(()) && props.value == Create(old(props.value)).value
    ensures Create(old(props.value)).Err? ==> r == Err(Create(old(props.value)).error) && props.value == old(props.value)
  {
    var value := Trim(props.value);
    if |value| < MinLength {
      return Err(ArgumentInvalid(TooShortMessage));
    }
    if exists k :: 0 <= k < |value| && !PatternChar(value[k]) {
      return Err(ArgumentInvalid(InvalidCharactersMessage));
    }
    value := ToUpper(value);
    props.value := value;
    return Ok(());
  }
}
