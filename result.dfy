/** The `Result` tagged union of the shared kernel and its combinators. */
module Results {

  datatype Result<+T, +E> = Ok(value: T) | Err(error: E)

  /** How a JavaScript call ends: it returns a value or throws an exception. */
  datatype Completion<+T, +X> = Returns(value: T) | Throws(exception: X)

  /** `UnwrapResultError`: what `unwrap`/`unwrapErr` throw; `cause` is the payload
      of the variant that was not expected. */
  datatype UnwrapResultError<+C> = UnwrapResultError(message: string, cause: C)

  const UnwrapErrMessage := "Attempted to unwrap a Result.Err"
  const UnwrapOkMessage := "Attempted to unwrapErr a Result.Ok"

  predicate IsOk<T, E>(r: Result<T, E>)
  {
    r.Ok?
  }

  predicate IsErr<T, E>(r: Result<T, E>)
  {
    r.Err?
  }

  /** Every result is exactly one of Ok and Err. */
  lemma ExactlyOneVariant<T, E>(r: Result<T, E>)
    ensures IsOk(r) != IsErr(r)
  {
  }

  function Unwrap<T, E>(r: Result<T, E>): Completion<T, UnwrapResultError<E>>
  {
    if IsErr(r) then Throws(UnwrapResultError(UnwrapErrMessage, r.error)) else Returns(r.value)
  }

  function UnwrapErr<T, E>(r: Result<T, E>): Completion<E, UnwrapResultError<T>>
  {
    if IsOk(r) then Throws(UnwrapResultError(UnwrapOkMessage, r.value)) else Returns(r.error)
  }

  function UnwrapOr<T, E>(r: Result<T, E>, defaultValue: T): T
  {
    if IsOk(r) then r.value else defaultValue
  }

  function UnwrapOrElse<T, E>(r: Result<T, E>, fn: E -> T): T
  {
    if IsOk(r) then r.value else fn(r.error)
  }

  function Map<T, U, E>(r: Result<T, E>, fn: T -> U): Result<U, E>
  {
    if IsOk(r) then Ok(fn(r.value)) else Err(r.error)
  }

  function MapErr<T, E, F>(r: Result<T, E>, fn: E -> F): Result<T, F>
  {
    if IsErr(r) then Err(fn(r.error)) else Ok(r.value)
  }

  function AndThen<T, U, E>(r: Result<T, E>, fn: T -> Result<U, E>): Result<U, E>
  {
    if IsOk(r) then fn(r.value) else Err(r.error)
  }

  function Match<T, E, R>(r: Result<T, E>, onOk: T -> R, onErr: E -> R): R
  {
    if IsOk(r) then onOk(r.value) else onErr(r.error)
  }

  /** `unwrap` returns exactly the Ok payload, and otherwise throws an
      `UnwrapResultError` whose cause is the error; `unwrapErr` is its mirror, so
      exactly one of the two returns. */
  lemma UnwrapContract<T, E>(r: Result<T, E>)
    ensures Unwrap(r).Returns? <==> r.Ok?
    ensures r.Ok? ==> Unwrap(r).value == r.value
    ensures r.Err? ==> Unwrap(r) == Throws(UnwrapResultError(UnwrapErrMessage, r.error))
    ensures UnwrapErr(r).Returns? <==> !Unwrap(r).Returns?
    ensures r.Err? ==> UnwrapErr(r).value == r.error
    ensures r.Ok? ==> UnwrapErr(r) == Throws(UnwrapResultError(UnwrapOkMessage, r.value))
  {
  }

  /** The non-throwing extractors agree with `unwrap` where it returns, and fall back
      otherwise; the fallback function is not consulted on Ok. */
  lemma UnwrapOrAgreesWithUnwrap<T, E>(r: Result<T, E>, d: T, f: E -> T, g: E -> T)
    ensures Unwrap(r).Returns? ==> UnwrapOr(r, d) == Unwrap(r).value == UnwrapOrElse(r, f)
    ensures Unwrap(r).Throws? ==> UnwrapOr(r, d) == d && UnwrapOrElse(r, f) == f(Unwrap(r).exception.cause)
    ensures r.Ok? ==> UnwrapOrElse(r, f) == UnwrapOrElse(r, g)
  {
  }

  /** `map` applies its function to an Ok value and passes an Err through with the
      same error; it is a functor (identity and composition laws) and is `andThen`
      followed by `ok`. */
  lemma MapLaws<T, U, V, E>(r: Result<T, E>, f: T -> U, g: U -> V)
    ensures r.Ok? ==> Map(r, f) == Ok(f(r.value))
    ensures r.Err? ==> Map(r, f) == Err(r.error)
    ensures Map(r, x => x) == r
    ensures Map(Map(r, f), g) == Map(r, x => g(f(x)))
    ensures Map(r, f) == AndThen(r, x => Ok(f(x)))
  {
  }

  /** `mapErr` is the mirror image of `map` on the error channel, and the two
      commute. */
  lemma MapErrLaws<T, U, E, F, G>(r: Result<T, E>, f: E -> F, g: F -> G, h: T -> U)
    ensures r.Err? ==> MapErr(r, f) == Err(f(r.error))
    ensures r.Ok? ==> MapErr(r, f) == Ok(r.value)
    ensures MapErr(r, x => x) == r
    ensures MapErr(MapErr(r, f), g) == MapErr(r, x => g(f(x)))
    ensures MapErr(Map(r, h), f) == Map(MapErr(r, f), h)
  {
  }

  /** `andThen` short-circuits on Err and is a monadic bind: left identity, right
      identity and associativity hold. */
  lemma AndThenLaws<T, U, V, E>(r: Result<T, E>, v: T, f: T -> Result<U, E>, g: U -> Result<V, E>)
    ensures AndThen(Ok(v), f) == f(v)
    ensures r.Err? ==> AndThen(r, f) == Err(r.error)
    ensures AndThen(r, x => Ok(x)) == r
    ensures AndThen(AndThen(r, f), g) == AndThen(r, x => AndThen(f(x), g))
  {
  }

  /** `match` runs exactly the handler of the active variant; matching with the two
      constructors rebuilds the result, and matching equals mapping then
      extracting. */
  lemma MatchLaws<T, E, R>(r: Result<T, E>, onOk: T -> R, onErr: E -> R)
    ensures r.Ok? ==> Match(r, onOk, onErr) == onOk(r.value)
    ensures r.Err? ==> Match(r, onOk, onErr) == onErr(r.error)
    ensures Match(r, x => Ok(x), e => Err(e)) == r
    ensures Match(r, onOk, onErr) == UnwrapOrElse(Map(r, onOk), onErr)
  {
  }

  /** `combine` / `all`: Ok of every value, in input order, when every item is Ok;
      otherwise an Err (the first one, see `CombineFirstErr`). */
  function Combine<T, E>(rs: seq<Result<T, E>>): (c: Result<seq<T>, E>)
    ensures c.Ok? <==> forall i :: 0 <= i < |rs| ==> rs[i].Ok?
    ensures c.Ok? ==> |c.value| == |rs| && forall i :: 0 <= i < |rs| ==> c.value[i] == rs[i].value
  {
    if rs == [] then Ok([])
    else if rs[0].Err? then Err(rs[0].error)
    else
      match Combine(rs[1..])
      case Ok(vs) => Ok([rs[0].value] + vs)
      case Err(e) => Err(e)
  }

  /** First error wins: the Err of `combine` is that of the leftmost Err item. */
  lemma {:induction false} CombineFirstErr<T, E>(rs: seq<Result<T, E>>, i: nat)
    requires i < |rs| && rs[i].Err?
    requires forall j :: 0 <= j < i ==> rs[j].Ok?
    ensures Combine(rs) == Err(rs[i].error)
  {
    if i > 0 {
      CombineFirstErr(rs[1..], i - 1);
    }
  }
}
