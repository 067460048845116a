/** The `Option` tagged union of the shared kernel and its combinators. */
module Options {
  import opened Results

  datatype Option<+T> = None | Some(value: T)

  /** `UnwrapOptionError`: what `unwrap` throws on None; it carries no payload. */
  datatype UnwrapOptionError = UnwrapOptionError(message: string)

  const UnwrapNoneMessage := "Attempted to unwrap an Option.None value"

  /** `Option.none()`: the one shared None value. */
  function NoneValue<T>(): Option<T>
  {
    None
  }

  /** Every None is the shared None value: a None carries nothing that could tell
      two of them apart. */
  lemma NoneIsShared<T>(o: Option<T>)
    requires IsNone(o)
    ensures o == NoneValue()
  {
  }

  predicate IsSome<T>(o: Option<T>)
  {
    o.Some?
  }

  predicate IsNone<T>(o: Option<T>)
  {
    o.None?
  }

  /** Every option is exactly one of Some and None. */
  lemma ExactlyOneVariant<T>(o: Option<T>)
    ensures IsSome(o) != IsNone(o)
  {
  }

  function Unwrap<T>(o: Option<T>): Completion<T, UnwrapOptionError>
  {
    if IsNone(o) then Throws(UnwrapOptionError(UnwrapNoneMessage)) else Returns(o.value)
  }

  function UnwrapOr<T>(o: Option<T>, defaultValue: T): T
  {
    if IsSome(o) then o.value else defaultValue
  }

  function UnwrapOrElse<T>(o: Option<T>, fn: () -> T): T
  {
    if IsSome(o) then o.value else fn()
  }

  function Map<T, U>(o: Option<T>, fn: T -> U): Option<U>
  {
    if IsSome(o) then Some(fn(o.value)) else NoneValue()
  }

  function AndThen<T, U>(o: Option<T>, fn: T -> Option<U>): Option<U>
  {
    if IsSome(o) then fn(o.value) else NoneValue()
  }

  function Match<T, R>(o: Option<T>, onSome: T -> R, onNone: () -> R): R
  {
    if IsSome(o) then onSome(o.value) else onNone()
  }

  /** `unwrap` returns the Some value and throws `UnwrapOptionError` on None; the
      non-throwing extractors agree with it where it returns and fall back
      otherwise. */
  lemma UnwrapContract<T>(o: Option<T>, d: T, f: () -> T)
    ensures Unwrap(o).Returns? <==> o.Some?
    ensures o.Some? ==> Unwrap(o).value == o.value == UnwrapOr(o, d) == UnwrapOrElse(o, f)
    ensures o.None? ==> Unwrap(o) == Throws(UnwrapOptionError(UnwrapNoneMessage))
    ensures o.None? ==> UnwrapOr(o, d) == d && UnwrapOrElse(o, f) == f()
  {
  }

  /** `map` is a functor and equals `andThen` followed by `some`. */
  lemma MapLaws<T, U, V>(o: Option<T>, v: T, f: T -> U, g: U -> V)
    ensures Map(Some(v), f) == Some(f(v))
    ensures Map(NoneValue<T>(), f) == NoneValue<U>()
    ensures Map(o, x => x) == o
    ensures Map(Map(o, f), g) == Map(o, x => g(f(x)))
    ensures Map(o, f) == AndThen(o, x => Some(f(x)))
  {
  }

  /** `andThen` short-circuits on None and is a monadic bind. */
  lemma AndThenLaws<T, U, V>(o: Option<T>, v: T, f: T -> Option<U>, g: U -> Option<V>)
    ensures AndThen(Some(v), f) == f(v)
    ensures AndThen(NoneValue<T>(), f) == NoneValue<U>()
    ensures AndThen(o, x => Some(x)) == o
    ensures AndThen(AndThen(o, f), g) == AndThen(o, x => AndThen(f(x), g))
  {
  }

  /** `match` runs exactly the handler of the active variant. */
  lemma MatchLaws<T, R>(o: Option<T>, onSome: T -> R, onNone: () -> R)
    ensures o.Some? ==> Match(o, onSome, onNone) == onSome(o.value)
    ensures o.None? ==> Match(o, onSome, onNone) == onNone()
    ensures Match(o, onSome, onNone) == UnwrapOrElse(Map(o, onSome), onNone)
  {
  }
}
