/** The `AggregateRoot` base class: an entity that also keeps the list of domain
    events it has raised and not yet handed out. The list is a JavaScript array shared
    by reference, so it is an object of its own here. */
module Aggregates {
  import opened Options
  import opened EntityIds
  import opened DomainEvents

  /** A `DomainEvent[]` array. */
  class EventList {
    var items: seq<DomainEvent>

    /** `[]`, or `slice()` of an array holding `items`. */
    constructor (items: seq<DomainEvent>)
      ensures this.items == items
    {
      this.items := items;
    }

    /** `push`. */
    method Push(e: DomainEvent)
      modifies this
      ensures items == old(items) + [e]
    {
      items := items + [e];
    }
  }

  class AggregateRoot<P> {
    const id: UniqueEntityId
    var props: P
    var events: EventList

    /** The entity constructor (the given id or a generated one, and a copy of the
        props) followed by the field initialiser `_domainEvents = []`. */
    constructor (props: P, id: Option<UniqueEntityId>, generated: string)
      ensures this.id == OrGenerate(id, generated) && this.props == props
      ensures fresh(events) && events.items == []
    {
      this.id := OrGenerate(id, generated);
      this.props := props;
      events := new EventList([]);
    }

    /** The pending events, in the order they were added. */
    function Pending(): seq<DomainEvent>
      reads this, events
    {
      events.items
    }

    /** The `domainEvents` getter: the live array itself, not a copy. */
    method DomainEvents() returns (l: EventList)
      ensures l == events
    {
      l := events;
    }

    /** `addDomainEvent`: appends to the live array. */
    method AddDomainEvent(e: DomainEvent)
      modifies events
      ensures Pending() == old(Pending()) + [e]
    {
      events.Push(e);
    }

    /** `clearEvents`: a new empty array replaces the old one; whoever holds the old
        array keeps its contents. */
    method ClearEvents()
      modifies this
      ensures fresh(events) && Pending() == []
      ensures props == old(props)
    {
      events := new EventList([]);
    }

    /** `pullEvents`: hands out a copy of the pending events and starts a new empty
        array. */
    method PullEvents() returns (pulled: EventList)
      modifies this
      ensures fresh(pulled) && pulled.items == old(Pending())
      ensures fresh(events) && events != pulled && Pending() == []
      ensures props == old(props)
    {
      pulled := new EventList(events.items);
      events := new EventList([]);
    }

    /** `updateProps`, which subclasses call but neither base class defines; assumed to
        replace the props with the merged ones it is given. */
    method UpdateProps(p: P)
      modifies this
      ensures props == p && events == old(events)
    {
      props := p;
    }
  }

  /** Appending to the array `domainEvents` returns adds a pending event. */
  method AppendThroughGetter<P>(a: AggregateRoot<P>, e: DomainEvent)
    modifies a.events
    ensures a.Pending() == old(a.Pending()) + [e]
  {
    var l := a.DomainEvents();
    l.Push(e);
  }

  /** Appending to a pulled array leaves the aggregate without pending events. */
  method PushOntoPulled<P>(a: AggregateRoot<P>, e: DomainEvent) returns (pulled: EventList)
    modifies a
    ensures pulled.items == old(a.Pending()) + [e]
    ensures a.Pending() == []
  {
    pulled := a.PullEvents();
    pulled.Push(e);
  }

  /** A second pull returns nothing. */
  method PullTwice<P>(a: AggregateRoot<P>) returns (first: EventList, second: EventList)
    modifies a
    ensures first.items == old(a.Pending()) && second.items == [] && a.Pending() == []
  {
    first := a.PullEvents();
    second := a.PullEvents();
  }
}
