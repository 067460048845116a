/** `UniqueEntityID`: an identifier that is compared by its string value. The random
    UUID the constructor draws when it is given no string is a parameter, `generated`. */
module EntityIds {
  import opened JsValues
  import opened Options
  import opened Results
  import opened Errors
  import Strings

  datatype UniqueEntityId = UniqueEntityId(value: string)

  /** The constructor: `id ?? randomUUID()`. */
  function New(id: Option<string>, generated: string): (u: UniqueEntityId)
    ensures ToString(u) == (if id.Some? then id.value else generated)
  {
    UniqueEntityId(if id.Some? then id.value else generated)
  }

  function ToString(u: UniqueEntityId): string
  {
    u.value
  }

  function ToValue(u: UniqueEntityId): string
  {
    u.value
  }

  /** `equals`: false for `null`/`undefined` and for an object that is not an id,
      otherwise string equality. */
  predicate Equals(u: UniqueEntityId, other: Arg<UniqueEntityId>)
  {
    match other
    case Absent => false
    case Foreign => false
    case Given(o) => ToValue(o) == u.value
  }

  /** Both accessors return the string the id was built from, and a missing string is
      replaced by the generated one. */
  lemma AccessorsReturnValue(s: string, generated: string)
    ensures ToString(New(Some(s), generated)) == s && ToValue(New(Some(s), generated)) == s
    ensures ToString(New(None, generated)) == generated
  {
  }

  /** `equals` is string equality on ids, so it is an equivalence relation, and two ids
      built from different generated values differ. */
  lemma EqualsLaws(a: UniqueEntityId, b: UniqueEntityId, c: UniqueEntityId)
    ensures !Equals(a, Absent) && !Equals(a, Foreign)
    ensures Equals(a, Given(b)) <==> ToString(a) == ToString(b)
    ensures Equals(a, Given(a))
    ensures Equals(a, Given(b)) ==> Equals(b, Given(a))
    ensures Equals(a, Given(b)) && Equals(b, Given(c)) ==> Equals(a, Given(c))
  {
  }

  lemma FreshIdsDiffer(f1: string, f2: string)
    requires f1 != f2
    ensures !Equals(New(None, f1), Given(New(None, f2)))
  {
  }

  /** `UniqueEntityID.generate()`, which callers use but the class does not define;
      assumed to wrap a generated UUID. */
  function Generate(generated: string): (u: UniqueEntityId)
    ensures ToString(u) == generated
  {
    New(None, generated)
  }

  /** `id ?? UniqueEntityID.generate()`, as entity constructors choose their id. */
  function OrGenerate(id: Option<UniqueEntityId>, generated: string): (u: UniqueEntityId)
    ensures id.Some? ==> u == id.value
    ensures id.None? ==> ToString(u) == generated
  {
    if id.Some? then id.value else Generate(generated)
  }

  /** `UniqueEntityID.create(s)`, which the user mapper uses but the class does not
      define; assumed to reject an empty or blank string and otherwise wrap `s`. */
  function Create(s: string): (r: Result<UniqueEntityId, DomainError>)
    ensures r.Ok? <==> !Strings.AllWhitespace(s)
    ensures r.Ok? ==> ToString(r.value) == s
  {
    if Strings.Trim(s) == [] then Err(ArgumentInvalid("UniqueEntityID cannot be empty"))
    else Ok(New(Some(s), s))
  }
}
