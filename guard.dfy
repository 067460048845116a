/** `Guard`: emptiness, length and range predicates used by validation code. */
module Guard {
  import opened JsValues
  import opened Strings

  /** Null, undefined, a blank string or an empty array. */
  predicate IsEmpty(value: JsValue)
  {
    match value
    case JsNull => true
    case JsUndefined => true
    case JsString(s) => |Trim(s)| == 0
    case JsArray(items) => |items| == 0
    case _ => false
  }

  /** A string is empty exactly when it is whitespace only; an array exactly when it
      has no items; null and undefined are empty; numbers (0 included), booleans,
      dates, objects, value objects and entities never are. */
  lemma IsEmptyCases(value: JsValue)
    ensures value.JsNull? || value.JsUndefined? ==> IsEmpty(value)
    ensures value.JsString? ==> (IsEmpty(value) <==> AllWhitespace(value.s))
    ensures value.JsArray? ==> (IsEmpty(value) <==> value.items == [])
    ensures (value.JsNumber? || value.JsBool? || value.JsDate? || value.JsObject?
             || value.JsValueObject? || value.JsEntity?) ==> !IsEmpty(value)
  {
  }

  predicate IsShort<T>(value: seq<T>, minLength: int)
  {
    |value| < minLength
  }

  predicate IsLong<T>(value: seq<T>, maxLength: int)
  {
    |value| > maxLength
  }

  /** A value is never both shorter and longer than the same bound; it is neither
      exactly when its length equals the bound. */
  lemma ShortLongExclusive<T>(value: seq<T>, n: int)
    ensures !(IsShort(value, n) && IsLong(value, n))
    ensures !IsShort(value, n) && !IsLong(value, n) <==> |value| == n
  {
  }

  predicate IsOutOfRange(value: int, min: int, max: int)
  {
    value < min || value > max
  }

  /** The range is inclusive: a value is in range exactly when it lies between the
      two endpoints, both of which count as in range. */
  lemma OutOfRangeInclusive(value: int, min: int, max: int)
    ensures !IsOutOfRange(value, min, max) <==> min <= value <= max
    ensures min <= max ==> !IsOutOfRange(min, min, max) && !IsOutOfRange(max, min, max)
  {
  }
}
