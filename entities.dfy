/** The `Entity` base class: identity, equality by id, and the recursive `toObject`
    serialisation. Props are never changed after construction, so an entity is a
    value here. */
module Entities {
  import opened JsValues
  import opened Options
  import opened EntityIds
  import DateUtil

  datatype Entity = Entity(id: UniqueEntityId, props: seq<Field>)

  /** The constructor: the given id, or `UniqueEntityID.generate()` (the generated
      UUID is the parameter `generated`); props are copied with `{ ...props }`. */
  function New(props: seq<Field>, id: Option<UniqueEntityId>, generated: string): (e: Entity)
    ensures e.id == OrGenerate(id, generated)
  {
    Entity(OrGenerate(id, generated), Spread([], props))
  }

  /** The props copy holds the same keys with the same values, in the same order. */
  lemma ConstructorCopiesProps(props: seq<Field>, id: Option<UniqueEntityId>, generated: string)
    requires DistinctKeys(props)
    ensures New(props, id, generated).props == props
  {
    SpreadIntoEmpty([], props);
  }

  /** The entity as a run-time value inside other values. */
  function AsValue(e: Entity): (v: JsValue)
    ensures v.JsEntity? && v.entityId == ToString(e.id)
  {
    JsEntity(ToString(e.id), e.props, NoEventArray)
  }

  /** `isEntity`: a non-null object carrying the entity brand. */
  predicate IsEntity(v: JsValue)
  {
    v.JsEntity?
  }

  lemma IsEntityCases(e: Entity, v: JsValue)
    ensures IsEntity(AsValue(e))
    ensures !v.JsEntity? ==> !IsEntity(v)
    ensures !IsEntity(JsNull) && !IsEntity(JsObject([])) && !IsEntity(JsString("test"))
  {
  }

  /** `equals`: false for `null`/`undefined` and for an object without the brand,
      otherwise equality of the ids (the same instance has the same id). */
  predicate Equals(e: Entity, other: Arg<Entity>)
  {
    match other
    case Absent => false
    case Foreign => false
    case Given(o) => EntityIds.Equals(e.id, Given(o.id))
  }

  /** Two entities are equal exactly when their ids are, whatever their props. */
  lemma EqualsByIdentity(a: Entity, b: Entity)
    ensures !Equals(a, Absent) && !Equals(a, Foreign)
    ensures Equals(a, Given(a))
    ensures Equals(a, Given(b)) <==> ToString(a.id) == ToString(b.id)
    ensures Equals(a, Given(b)) <==> Equals(Entity(a.id, b.props), Given(Entity(b.id, a.props)))
  {
  }

  // ---------------------------------------------------------------------------
  // toObject

  /** `serializeValue`: a `Date` becomes its ISO string, an array is serialised element
      by element, an entity (the only values with a `toObject` method) becomes its
      `toObject()`, any other non-null object is walked key by key (a value object has
      the single own key `props`), and primitives stay as they are. */
  function Serialize(v: JsValue): (r: JsValue)
    decreases v, 0
  {
    match v
    case JsDate(t) => JsString(DateUtil.ToIsoString(t))
    case JsArray(items) => JsArray(SerializeItems(items))
    case JsEntity(id, fs, _) => JsObject(Spread([Field("id", JsString(id))], ConvertProps(fs)))
    case JsObject(fs) => JsObject(ConvertProps(fs))
    case JsValueObject(p) => JsObject([Field("props", Serialize(p))])
    case _ => v
  }

  function SerializeItems(items: seq<JsValue>): (r: seq<JsValue>)
    ensures |r| == |items|
    ensures forall i :: 0 <= i < |items| ==> r[i] == Serialize(items[i])
    decreases items, 1
  {
    if items == [] then [] else [Serialize(items[0])] + SerializeItems(items[1..])
  }

  /** `convertPropsToPlainObject`: the same keys, in the same order, each value
      serialised. */
  function ConvertProps(fs: seq<Field>): (r: seq<Field>)
    ensures Keys(r) == Keys(fs)
    ensures forall i :: 0 <= i < |fs| ==> r[i].val == Serialize(fs[i].val)
    decreases fs, 1
  {
    if fs == [] then []
    else
      var rest := ConvertProps(fs[1..]);
      assert Keys([Field(fs[0].key, Serialize(fs[0].val))] + rest) == [fs[0].key] + Keys(rest);
      assert Keys(fs) == [fs[0].key] + Keys(fs[1..]);
      [Field(fs[0].key, Serialize(fs[0].val))] + rest
  }

  /** `toObject`: `{ id: <id string>, ...convertPropsToPlainObject(props) }`. */
  function ToObject(e: Entity): seq<Field>
  {
    Spread([Field("id", JsString(ToString(e.id)))], ConvertProps(e.props))
  }

  lemma {:induction false} ConvertPropsLookup(fs: seq<Field>, k: string)
    ensures Lookup(ConvertProps(fs), k) == if k in Keys(fs) then Serialize(Lookup(fs, k)) else JsUndefined
  {
    if fs != [] {
      assert Keys(fs) == [fs[0].key] + Keys(fs[1..]);
      ConvertPropsLookup(fs[1..], k);
      assert ConvertProps(fs)[1..] == ConvertProps(fs[1..]);
      assert Keys(ConvertProps(fs)) == [fs[0].key] + Keys(ConvertProps(fs[1..]));
    }
  }

  /** `toObject` holds the key `id` first, then every prop key; each prop reads its
      serialised value, and `id` reads the id string unless a prop named `id`
      overrides it (props are spread after it). */
  lemma ToObjectShape(e: Entity, k: string)
    requires DistinctKeys(e.props)
    ensures var o := ToObject(e);
            DistinctKeys(o) && |o| > 0 && o[0].key == "id"
            && (forall k' :: k' in Keys(o) <==> k' == "id" || k' in Keys(e.props))
            && Lookup(o, "id") == (if "id" in Keys(e.props) then Serialize(Lookup(e.props, "id"))
                                   else JsString(ToString(e.id)))
            && (k != "id" ==> Lookup(o, k) == if k in Keys(e.props) then Serialize(Lookup(e.props, k)) else JsUndefined)
  {
    var base := [Field("id", JsString(ToString(e.id)))];
    var plain := ConvertProps(e.props);
    assert Keys(plain) == Keys(e.props);
    assert DistinctKeys(plain);
    SpreadLookup(base, plain, k);
    SpreadLookup(base, plain, "id");
    ConvertPropsLookup(e.props, k);
    ConvertPropsLookup(e.props, "id");
    SpreadKeepsBaseKeys(base, plain);
    forall k' ensures k' in Keys(ToObject(e)) <==> k' == "id" || k' in Keys(e.props) {
      SpreadKeySet(base, plain, k');
    }
  }

  // ---------------------------------------------------------------------------
  // What serialisation produces

  /** JSON-ready data: no `Date`, value object or entity anywhere inside. */
  predicate JsonReady(v: JsValue)
    decreases v, 1
  {
    match v
    case JsDate(_) => false
    case JsValueObject(_) => false
    case JsEntity(_, _, _) => false
    case JsArray(items) => forall i :: 0 <= i < |items| ==> JsonReady(items[i])
    case JsObject(fs) => FieldsReady(fs)
    case _ => true
  }

  predicate FieldsReady(fs: seq<Field>)
    decreases fs, 2
  {
    forall i :: 0 <= i < |fs| ==> JsonReady(fs[i].val)
  }

  /** Serialisation turns every value into JSON-ready data. */
  lemma {:induction false} SerializeIsJsonReady(v: JsValue)
    ensures JsonReady(Serialize(v))
    decreases v, 0
  {
    match v
    case JsArray(items) =>
      forall i | 0 <= i < |items| ensures JsonReady(Serialize(items[i])) {
        SerializeIsJsonReady(items[i]);
      }
    case JsObject(fs) => ConvertPropsReady(fs);
    case JsEntity(id, fs, _) =>
      ConvertPropsReady(fs);
      SpreadReady([Field("id", JsString(id))], ConvertProps(fs));
    case JsValueObject(p) =>
      SerializeIsJsonReady(p);
      var r := [Field("props", Serialize(p))];
      assert FieldsReady(r);
    case _ =>
  }

  lemma {:induction false} ConvertPropsReady(fs: seq<Field>)
    ensures FieldsReady(ConvertProps(fs))
    decreases fs, 2
  {
    forall i | 0 <= i < |fs| ensures JsonReady(ConvertProps(fs)[i].val) {
      SerializeIsJsonReady(fs[i].val);
    }
  }

  lemma {:induction false} SpreadReady(base: seq<Field>, extra: seq<Field>)
    requires FieldsReady(base) && FieldsReady(extra)
    ensures FieldsReady(Spread(base, extra))
    decreases |extra|
  {
    if extra != [] {
      AssignReady(base, extra[0].key, extra[0].val);
      SpreadReady(Assign(base, extra[0].key, extra[0].val), extra[1..]);
    }
  }

  lemma {:induction false} AssignReady(fs: seq<Field>, k: string, v: JsValue)
    requires FieldsReady(fs) && JsonReady(v)
    ensures FieldsReady(Assign(fs, k, v))
  {
    if fs != [] && fs[0].key != k {
      AssignReady(fs[1..], k, v);
    }
  }

  /** JSON-ready data serialises to itself. */
  lemma {:induction false} JsonReadyIsFixedPoint(v: JsValue)
    requires JsonReady(v)
    ensures Serialize(v) == v
    decreases v, 0
  {
    match v
    case JsArray(items) =>
      forall i | 0 <= i < |items| ensures Serialize(items[i]) == items[i] {
        JsonReadyIsFixedPoint(items[i]);
      }
      assert SerializeItems(items) == items;
    case JsObject(fs) =>
      forall i | 0 <= i < |fs| ensures Serialize(fs[i].val) == fs[i].val {
        JsonReadyIsFixedPoint(fs[i].val);
      }
      var r := ConvertProps(fs);
      assert forall i :: 0 <= i < |fs| ==> r[i].key == Keys(r)[i] == Keys(fs)[i] == fs[i].key;
      assert r == fs;
    case _ =>
  }
}
