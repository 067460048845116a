/** The `DomainEvent` base class: an event records the aggregate it concerns, a
    payload, its own id and the time it occurred; the subclass supplies its name. */
module DomainEvents {
  import opened JsValues
  import opened Options
  import opened EntityIds
  import DateUtil

  datatype DomainEvent = DomainEvent(
    eventId: string,
    aggregateId: UniqueEntityId,
    payload: JsValue,
    occurredOn: int,
    eventName: string)

  /** The constructor. `eventId` defaults to a generated id and `occurredOn` to the
      current time; both defaults are parameters (`generated`, `now`). */
  function New(name: string, aggregateId: UniqueEntityId, payload: JsValue,
               eventId: Option<string>, occurredOn: Option<int>,
               generated: string, now: int): (e: DomainEvent)
    ensures e.aggregateId == aggregateId && e.payload == payload && e.eventName == name
    ensures e.eventId == (if eventId.Some? then eventId.value else ToString(Generate(generated)))
    ensures e.occurredOn == (if occurredOn.Some? then occurredOn.value else now)
  {
    DomainEvent(
      if eventId.Some? then eventId.value else ToString(Generate(generated)),
      aggregateId, payload,
      if occurredOn.Some? then occurredOn.value else now,
      name)
  }

  /** `toJSON`. */
  function ToJson(e: DomainEvent): seq<Field>
  {
    [Field("eventId", JsString(e.eventId)),
     Field("aggregateId", JsString(ToString(e.aggregateId))),
     Field("eventName", JsString(e.eventName)),
     Field("occurredOn", JsString(DateUtil.ToIsoString(e.occurredOn))),
     Field("payload", e.payload)]
  }

  const EventKeys: seq<string> := ["eventId", "aggregateId", "eventName", "occurredOn", "payload"]

  lemma EventKeysDiffer()
    ensures forall i, j :: 0 <= i < j < |EventKeys| ==> EventKeys[i] != EventKeys[j]
  {
    var ks := EventKeys;
    assert ks[0][0] == 'e' && ks[1][0] == 'a' && ks[2][0] == 'e' && ks[3][0] == 'o' && ks[4][0] == 'p';
    assert |ks[0]| != |ks[2]|;
  }

  /** The five keys of `toJSON`, which are pairwise different. */
  lemma ToJsonKeys(e: DomainEvent)
    ensures Keys(ToJson(e)) == ["eventId", "aggregateId", "eventName", "occurredOn", "payload"]
    ensures DistinctKeys(ToJson(e))
  {
    var fs := ToJson(e);
    assert Keys(fs) == EventKeys;
    EventKeysDiffer();
    forall i, j | 0 <= i < j < |fs| ensures fs[i].key != fs[j].key {
      assert fs[i].key == EventKeys[i] && fs[j].key == EventKeys[j];
    }
  }

  /** `toJSON` holds exactly the five keys, in order, with the id and the aggregate id
      as strings, the date as its ISO string and the payload as it is. */
  lemma ToJsonShape(e: DomainEvent)
    ensures Keys(ToJson(e)) == ["eventId", "aggregateId", "eventName", "occurredOn", "payload"]
    ensures DistinctKeys(ToJson(e))
    ensures Lookup(ToJson(e), "eventId") == JsString(e.eventId)
    ensures Lookup(ToJson(e), "aggregateId") == JsString(ToString(e.aggregateId))
    ensures Lookup(ToJson(e), "eventName") == JsString(e.eventName)
    ensures Lookup(ToJson(e), "occurredOn") == JsString(DateUtil.ToIsoString(e.occurredOn))
    ensures Lookup(ToJson(e), "payload") == e.payload
  {
    var o := ToJson(e);
    ToJsonKeys(e);
    LookupDistinct(o, 0);
    LookupDistinct(o, 1);
    LookupDistinct(o, 2);
    LookupDistinct(o, 3);
    LookupDistinct(o, 4);
  }

  /** `UserCreatedEvent.eventName`. */
  const UserCreatedName: string := "Iam.UserCreated"
}
