/** The `ValueObject` base class: props that never change after construction, the
    recursive `unpack`, and structural `equals` through `JSON.stringify`. */
module ValueObjects {
  import opened JsValues
  import DateUtil

  /** A value object is its props; the instance itself is `JsValueObject(props)` when
      it appears inside other values. */
  datatype ValueObject = ValueObject(props: JsValue)

  /** `isDomainPrimitive`: a non-null object with a `value` property. A nested value
      object has one too, through its `value` getter. */
  predicate IsDomainPrimitive(v: JsValue)
  {
    (v.JsObject? && "value" in Keys(v.fields)) || v.JsValueObject?
  }

  /** `unpack()`: a primitive wrapper yields its `value` (for a nested value object the
      getter yields that object's own `unpack()`); anything else is unpacked
      recursively. */
  function Unpack(props: JsValue): (r: JsValue)
    decreases props, 1
  {
    match props
    case JsObject(fs) =>
      if "value" in Keys(fs) then Lookup(fs, "value") else UnpackRecursively(props)
    case JsValueObject(p) => Unpack(p)
    case _ => UnpackRecursively(props)
  }

  /** The `value` getter. */
  function Value(vo: ValueObject): JsValue
  {
    Unpack(vo.props)
  }

  /** `unpackRecursively`: a nested value object becomes its `unpack()`, an array is
      mapped element by element, any other non-null object other than a `Date` is
      rebuilt key by key (an entity is walked through its own keys `_id` and `props`,
      and an aggregate also through `_domainEvents`), and everything else is returned
      as it is. */
  function UnpackRecursively(v: JsValue): (r: JsValue)
    decreases v, 0
  {
    match v
    case JsValueObject(p) => Unpack(p)
    case JsArray(items) => JsArray(UnpackItems(items))
    case JsObject(fs) => JsObject(UnpackFields(fs))
    case JsEntity(id, fs, events) =>
      JsObject([Field("_id", JsObject([Field("value", JsString(id))])),
                Field("props", JsObject(UnpackFields(fs)))]
               + UnpackEventSlot(events))
    case _ => v
  }

  /** The `_domainEvents` member of an unpacked aggregate, if the entity has one. */
  function UnpackEventSlot(slot: EventSlot): (r: seq<Field>)
    decreases slot, 3
  {
    match slot
    case NoEventArray => []
    case EventArray(events) => [Field("_domainEvents", JsArray(UnpackItems(events)))]
  }

  function UnpackItems(items: seq<JsValue>): (r: seq<JsValue>)
    ensures |r| == |items|
    ensures forall i :: 0 <= i < |items| ==> r[i] == UnpackRecursively(items[i])
    decreases items, 2
  {
    if items == [] then [] else [UnpackRecursively(items[0])] + UnpackItems(items[1..])
  }

  function UnpackFields(fs: seq<Field>): (r: seq<Field>)
    ensures Keys(r) == Keys(fs)
    ensures forall i :: 0 <= i < |fs| ==> r[i].val == UnpackRecursively(fs[i].val)
    decreases fs, 2
  {
    if fs == [] then []
    else
      var rest := UnpackFields(fs[1..]);
      assert Keys([Field(fs[0].key, UnpackRecursively(fs[0].val))] + rest)
          == [fs[0].key] + Keys(rest);
      assert Keys(fs) == [fs[0].key] + Keys(fs[1..]);
      [Field(fs[0].key, UnpackRecursively(fs[0].val))] + rest
  }

  /** Plain data: nothing inside is a value object or an entity. */
  predicate Plain(v: JsValue)
    decreases v, 1
  {
    match v
    case JsValueObject(_) => false
    case JsEntity(_, _, _) => false
    case JsArray(items) => PlainItems(items)
    case JsObject(fs) => PlainFields(fs)
    case _ => true
  }

  predicate PlainItems(items: seq<JsValue>)
    decreases items, 2
  {
    items == [] || (Plain(items[0]) && PlainItems(items[1..]))
  }

  predicate PlainFields(fs: seq<Field>)
    decreases fs, 2
  {
    fs == [] || (Plain(fs[0].val) && PlainFields(fs[1..]))
  }

  /** A wrapper whose props carry a `value` key unpacks to that value, whatever other
      fields sit beside it. */
  lemma {:induction false} DomainPrimitiveUnpack(fs: seq<Field>)
    requires "value" in Keys(fs)
    ensures Value(ValueObject(JsObject(fs))) == Lookup(fs, "value")
    ensures IsDomainPrimitive(JsObject(fs))
  {
  }

  /** A value the domain-primitive type admits: `string | number | boolean | Date`
      (and the absent values). */
  predicate IsPrimitive(v: JsValue)
  {
    v.JsUndefined? || v.JsNull? || v.JsBool? || v.JsNumber? || v.JsString? || v.JsDate?
  }

  /** Props as the `ValueObjectProps` type declares them: a primitive wrapper holds a
      primitive, and every value object nested anywhere is typed the same way. */
  predicate WellTypedProps(props: JsValue)
    decreases props, 1
  {
    match props
    case JsObject(fs) =>
      if "value" in Keys(fs) then IsPrimitive(Lookup(fs, "value")) else WellTyped(props)
    case JsValueObject(p) => WellTypedProps(p)
    case _ => WellTyped(props)
  }

  predicate WellTyped(v: JsValue)
    decreases v, 0
  {
    match v
    case JsValueObject(p) => WellTypedProps(p)
    case JsArray(items) => WellTypedItems(items)
    case JsObject(fs) => WellTypedFields(fs)
    case JsEntity(_, fs, events) => WellTypedFields(fs) && (events.EventArray? ==> WellTypedItems(events.events))
    case _ => true
  }

  predicate WellTypedItems(items: seq<JsValue>)
    decreases items, 2
  {
    items == [] || (WellTyped(items[0]) && WellTypedItems(items[1..]))
  }

  predicate WellTypedFields(fs: seq<Field>)
    decreases fs, 2
  {
    fs == [] || (WellTyped(fs[0].val) && WellTypedFields(fs[1..]))
  }

  /** Unpacking well-typed props removes every value object and entity: the result is
      plain data. */
  lemma {:induction false} UnpackIsPlain(props: JsValue)
    requires WellTypedProps(props)
    ensures Plain(Unpack(props))
    decreases props, 1
  {
    match props
    case JsObject(fs) =>
      if "value" !in Keys(fs) {
        UnpackRecursivelyIsPlain(props);
      }
    case JsValueObject(p) => UnpackIsPlain(p);
    case _ => UnpackRecursivelyIsPlain(props);
  }

  lemma {:induction false} UnpackRecursivelyIsPlain(v: JsValue)
    requires WellTyped(v)
    ensures Plain(UnpackRecursively(v))
    decreases v, 0
  {
    match v
    case JsValueObject(p) => UnpackIsPlain(p);
    case JsArray(items) => UnpackItemsArePlain(items);
    case JsObject(fs) => UnpackFieldsArePlain(fs);
    case JsEntity(id, fs, events) =>
      UnpackFieldsArePlain(fs);
      var idObject := [Field("value", JsString(id))];
      assert PlainFields(idObject) by { assert PlainFields(idObject[1..]); }
      var tail := UnpackEventSlot(events);
      assert PlainFields(tail) by {
        if events.EventArray? {
          UnpackItemsArePlain(events.events);
          assert PlainFields(tail[1..]);
        }
      }
      var fields := [Field("_id", JsObject(idObject)), Field("props", JsObject(UnpackFields(fs)))] + tail;
      assert PlainFields(fields[2..]) by { assert fields[2..] == tail; }
      assert PlainFields(fields[1..]) by { assert fields[1..][1..] == fields[2..]; }
    case _ =>
  }

  lemma {:induction false} UnpackItemsArePlain(items: seq<JsValue>)
    requires WellTypedItems(items)
    ensures PlainItems(UnpackItems(items))
    decreases items, 2
  {
    if items != [] {
      UnpackRecursivelyIsPlain(items[0]);
      UnpackItemsArePlain(items[1..]);
      assert UnpackItems(items)[1..] == UnpackItems(items[1..]);
    }
  }

  lemma {:induction false} UnpackFieldsArePlain(fs: seq<Field>)
    requires WellTypedFields(fs)
    ensures PlainFields(UnpackFields(fs))
    decreases fs, 2
  {
    if fs != [] {
      UnpackRecursivelyIsPlain(fs[0].val);
      UnpackFieldsArePlain(fs[1..]);
      assert UnpackFields(fs)[1..] == UnpackFields(fs[1..]);
    }
  }

  /** Plain data comes back from `unpackRecursively` unchanged (as a copy). */
  lemma {:induction false} PlainIsFixedPoint(v: JsValue)
    requires Plain(v)
    ensures UnpackRecursively(v) == v
    decreases v, 0
  {
    match v
    case JsArray(items) => PlainItemsFixed(items);
    case JsObject(fs) => PlainFieldsFixed(fs);
    case _ =>
  }

  lemma {:induction false} PlainItemsFixed(items: seq<JsValue>)
    requires PlainItems(items)
    ensures UnpackItems(items) == items
    decreases items, 2
  {
    if items != [] {
      PlainIsFixedPoint(items[0]);
      PlainItemsFixed(items[1..]);
      assert items == [items[0]] + items[1..];
    }
  }

  lemma {:induction false} PlainFieldsFixed(fs: seq<Field>)
    requires PlainFields(fs)
    ensures UnpackFields(fs) == fs
    decreases fs, 2
  {
    if fs != [] {
      PlainIsFixedPoint(fs[0].val);
      PlainFieldsFixed(fs[1..]);
      assert fs == [fs[0]] + fs[1..];
    }
  }

  // ---------------------------------------------------------------------------
  // Structural equality through JSON.stringify

  /** The JSON text `JSON.stringify` produces, as a tree: two values stringify to the
      same text exactly when their trees are equal (string escaping is injective). */
  datatype Json =
    | JNull
    | JBool(b: bool)
    | JNumber(n: int)
    | JString(s: string)
    | JArray(items: seq<Json>)
    | JObject(members: seq<(string, Json)>)

  /** What `JSON.stringify` reads: a `Date` goes through its `toJSON` (the ISO string),
      `undefined` inside an array becomes `null`, object members whose value is
      `undefined` are dropped, a value object shows its own key `props`, and an entity
      its own keys `_id` (an id object with key `value`) and `props`, then, for an
      aggregate, `_domainEvents`. */
  function ToJson(v: JsValue): (j: Json)
    decreases v, 0
  {
    match v
    case JsUndefined => JNull
    case JsNull => JNull
    case JsBool(b) => JBool(b)
    case JsNumber(n) => JNumber(n)
    case JsString(s) => JString(s)
    case JsDate(t) => JString(DateUtil.ToIsoString(t))
    case JsArray(items) => JArray(ItemsToJson(items))
    case JsObject(fs) => JObject(MembersToJson(fs))
    case JsValueObject(p) => JObject(if p.JsUndefined? then [] else [("props", ToJson(p))])
    case JsEntity(id, fs, events) =>
      JObject([("_id", JObject([("value", JString(id))])), ("props", JObject(MembersToJson(fs)))]
              + EventSlotToJson(events))
  }

  /** The `_domainEvents` member of a serialised aggregate, if the entity has one. */
  function EventSlotToJson(slot: EventSlot): (ms: seq<(string, Json)>)
    decreases slot, 2
  {
    match slot
    case NoEventArray => []
    case EventArray(events) => [("_domainEvents", JArray(ItemsToJson(events)))]
  }

  function ItemsToJson(items: seq<JsValue>): (js: seq<Json>)
    ensures |js| == |items|
    decreases items, 1
  {
    if items == [] then [] else [ToJson(items[0])] + ItemsToJson(items[1..])
  }

  function MembersToJson(fs: seq<Field>): (ms: seq<(string, Json)>)
    ensures |ms| <= |fs|
    decreases fs, 1
  {
    if fs == [] then []
    else if fs[0].val.JsUndefined? then MembersToJson(fs[1..])
    else [(fs[0].key, ToJson(fs[0].val))] + MembersToJson(fs[1..])
  }

  /** `equals`: false for `null`/`undefined`, false when the other object has no props,
      true for the same instance, and otherwise equality of the serialised props.
      `Foreign` is an object without `props`. `JSON.stringify(undefined)` is
      `undefined`, not a string, so props that are `undefined` on this side equal
      nothing whose props are defined. */
  predicate Equals(vo: ValueObject, other: Arg<ValueObject>)
  {
    match other
    case Absent => false
    case Foreign => false
    case Given(o) => o.props != JsUndefined && vo.props != JsUndefined && ToJson(vo.props) == ToJson(o.props)
  }

  /** `equals` rejects `null`/`undefined`, accepts the object itself when its props
      are defined, and is symmetric and transitive. */
  lemma EqualsLaws(a: ValueObject, b: ValueObject, c: ValueObject)
    ensures !Equals(a, Absent) && !Equals(a, Foreign)
    ensures Equals(a, Given(a)) <==> a.props != JsUndefined
    ensures Equals(a, Given(b)) ==> Equals(b, Given(a))
    ensures Equals(a, Given(b)) && Equals(b, Given(c)) ==> Equals(a, Given(c))
  {
  }

  /** Undefined props on this side are equal to nothing, not even to props that are
      `null`, which `JSON.stringify` writes as `"null"`. */
  lemma UndefinedPropsEqualNothing(b: ValueObject)
    ensures !Equals(ValueObject(JsUndefined), Given(b))
    ensures !Equals(ValueObject(JsUndefined), Given(ValueObject(JsNull)))
  {
  }

  /** Field order is part of the serialised text: the same fields in another order are
      not equal. */
  lemma FieldOrderMatters()
    ensures var a := ValueObject(JsObject([Field("street", JsString("A")), Field("zip", JsString("1"))]));
            var b := ValueObject(JsObject([Field("zip", JsString("1")), Field("street", JsString("A"))]));
            !Equals(a, Given(b))
  {
    var a := [Field("street", JsString("A")), Field("zip", JsString("1"))];
    var b := [Field("zip", JsString("1")), Field("street", JsString("A"))];
    assert MembersToJson(a)[0].0 == "street";
    assert MembersToJson(b)[0].0 == "zip";
  }

  /** Props with the same keys, in the same order, whose values serialise alike at
      every position are equal; a single position where the serialised values differ
      makes them unequal. */
  lemma {:induction false} EqualsFieldwise(fs: seq<Field>, gs: seq<Field>)
    requires Keys(fs) == Keys(gs)
    requires forall i :: 0 <= i < |fs| ==> fs[i].val != JsUndefined && gs[i].val != JsUndefined
    ensures Equals(ValueObject(JsObject(fs)), Given(ValueObject(JsObject(gs))))
            <==> forall i :: 0 <= i < |fs| ==> ToJson(fs[i].val) == ToJson(gs[i].val)
  {
    MembersFieldwise(fs, gs);
  }

  lemma {:induction false} MembersFieldwise(fs: seq<Field>, gs: seq<Field>)
    requires Keys(fs) == Keys(gs)
    requires forall i :: 0 <= i < |fs| ==> fs[i].val != JsUndefined && gs[i].val != JsUndefined
    ensures MembersToJson(fs) == MembersToJson(gs)
            <==> forall i :: 0 <= i < |fs| ==> ToJson(fs[i].val) == ToJson(gs[i].val)
  {
    if fs != [] {
      assert Keys(fs)[0] == Keys(gs)[0];
      assert Keys(fs[1..]) == Keys(fs)[1..] && Keys(gs[1..]) == Keys(gs)[1..];
      MembersFieldwise(fs[1..], gs[1..]);
      var m, n := MembersToJson(fs), MembersToJson(gs);
      assert m == [(fs[0].key, ToJson(fs[0].val))] + MembersToJson(fs[1..]);
      assert n == [(gs[0].key, ToJson(gs[0].val))] + MembersToJson(gs[1..]);
      if m == n {
        assert m[1..] == n[1..];
        forall i | 0 <= i < |fs| ensures ToJson(fs[i].val) == ToJson(gs[i].val) {
          if i > 0 {
            assert fs[1..][i - 1] == fs[i] && gs[1..][i - 1] == gs[i];
          }
        }
      }
    }
  }

  /** A member whose value is `undefined` does not show in the serialised text, so it
      does not affect equality. */
  lemma UndefinedMembersIgnored(fs: seq<Field>, k: string)
    ensures Equals(ValueObject(JsObject(fs + [Field(k, JsUndefined)])), Given(ValueObject(JsObject(fs))))
  {
    UndefinedTail(fs, k);
  }

  lemma {:induction false} UndefinedTail(fs: seq<Field>, k: string)
    ensures MembersToJson(fs + [Field(k, JsUndefined)]) == MembersToJson(fs)
  {
    if fs != [] {
      assert (fs + [Field(k, JsUndefined)])[1..] == fs[1..] + [Field(k, JsUndefined)];
      UndefinedTail(fs[1..], k);
    }
  }

  /** The serialised text of a one-member object holding an aggregate. */
  lemma AggregateHolderToJson(k: string, id: string, props: seq<Field>, es: seq<JsValue>)
    ensures ToJson(JsObject([Field(k, JsEntity(id, props, EventArray(es)))]))
            == JObject([(k, JObject([("_id", JObject([("value", JString(id))])),
                                     ("props", JObject(MembersToJson(props))),
                                     ("_domainEvents", JArray(ItemsToJson(es)))]))])
  {
    var entity := JsEntity(id, props, EventArray(es));
    var holder := [Field(k, entity)];
    var base := [("_id", JObject([("value", JString(id))])), ("props", JObject(MembersToJson(props)))];
    var tail := [("_domainEvents", JArray(ItemsToJson(es)))];
    assert EventSlotToJson(EventArray(es)) == tail;
    assert ToJson(entity) == JObject(base + tail);
    assert base + tail == [base[0], base[1], tail[0]];
    assert holder[1..] == [];
    assert MembersToJson(holder) == [(k, ToJson(entity))] + MembersToJson([]);
  }

  /** An aggregate inside props is serialised with its pending events, so two value
      objects holding the same aggregate id and props are equal exactly when the
      pending events serialise alike. */
  lemma PendingEventsAreCompared(k: string, id: string, props: seq<Field>, evs: seq<JsValue>, evs': seq<JsValue>)
    ensures Equals(ValueObject(JsObject([Field(k, JsEntity(id, props, EventArray(evs)))])),
                   Given(ValueObject(JsObject([Field(k, JsEntity(id, props, EventArray(evs')))]))))
            <==> ItemsToJson(evs) == ItemsToJson(evs')
  {
    AggregateHolderToJson(k, id, props, evs);
    AggregateHolderToJson(k, id, props, evs');
    var a := ToJson(JsObject([Field(k, JsEntity(id, props, EventArray(evs)))]));
    var b := ToJson(JsObject([Field(k, JsEntity(id, props, EventArray(evs')))]));
    if a == b {
      assert a.members[0].1.members[2] == b.members[0].1.members[2];
    }
  }

  /** `unpackRecursively` walks an aggregate through its own keys, the pending events
      included, and unpacks each event. */
  lemma UnpackKeepsPendingEvents(id: string, fs: seq<Field>, evs: seq<JsValue>)
    ensures var r := UnpackRecursively(JsEntity(id, fs, EventArray(evs)));
            r.JsObject? && Keys(r.fields) == ["_id", "props", "_domainEvents"] &&
            r.fields[2].val == JsArray(UnpackItems(evs)) &&
            |r.fields[2].val.items| == |evs|
  {
    var r := UnpackRecursively(JsEntity(id, fs, EventArray(evs)));
    assert UnpackEventSlot(EventArray(evs)) == [Field("_domainEvents", JsArray(UnpackItems(evs)))];
    assert r.fields == [Field("_id", JsObject([Field("value", JsString(id))])),
                        Field("props", JsObject(UnpackFields(fs))),
                        Field("_domainEvents", JsArray(UnpackItems(evs)))];
  }

  /** The same aggregate with no pending event and with one pending event makes two
      value objects that are not equal. */
  lemma OnePendingEventBreaksEquality(k: string, id: string, props: seq<Field>, ev: JsValue)
    ensures !Equals(ValueObject(JsObject([Field(k, JsEntity(id, props, EventArray([])))])),
                    Given(ValueObject(JsObject([Field(k, JsEntity(id, props, EventArray([ev])))]))))
  {
    PendingEventsAreCompared(k, id, props, [], [ev]);
    assert |ItemsToJson([ev])| != |ItemsToJson([])|;
  }

  /** A `Date` serialises as its ISO string, so a value object holding a date equals one
      holding that string. */
  lemma DateEqualsItsIsoString(k: string, t: int)
    ensures Equals(ValueObject(JsObject([Field(k, JsDate(t))])),
                   Given(ValueObject(JsObject([Field(k, JsString(DateUtil.ToIsoString(t)))]))))
  {
    var iso := DateUtil.ToIsoString(t);
    assert ToJson(JsDate(t)) == JString(iso) == ToJson(JsString(iso));
    assert MembersToJson([Field(k, JsDate(t))]) == [(k, JString(iso))];
    assert MembersToJson([Field(k, JsString(iso))]) == [(k, JString(iso))];
  }

  // ---------------------------------------------------------------------------
  // The props object a `validate` hook receives

  /** `DomainPrimitive<string>`: the mutable props object a `validate` hook reads and
      writes back into. */
  class StringProps {
    var value: string

    constructor (value: string)
      ensures this.value == value
    {
      this.value := value;
    }
  }
}
