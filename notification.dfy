/**
 * The TMF641 notification emitter: event ids from a zero-padded counter, the listener
 * `eventType` filter, and the fan-out of one notification to every accepting listener.
 * Delivery over HTTP is an abstract effect recorded in the ghost log `published`; it never
 * fails and its outcome does not matter to the caller.
 */
module Notification {
  import opened Wrappers
  import opened Text
  import opened JsonValue
  import opened Schema
  import opened Store

  // ---------------------------------------------------------------------------------------
  // The listener filter

  /**
   * The `eventType` values of a query's `&`-separated parameters, in order, as `parse_qs`
   * collects them: a parameter without `=` is ignored, the name ends at the first `=`, and a
   * blank value is dropped.
   */
  function EventTypeValues(pairs: seq<string>): (r: seq<string>)
    ensures |r| <= |pairs|
    ensures forall i | 0 <= i < |r| :: r[i] != ""
  {
    if pairs == [] then []
    else
      var rest := EventTypeValues(pairs[1..]);
      if '=' in pairs[0] then
        var (name, value) := SplitOnce(pairs[0], '=');
        if name == "eventType" && value != "" then [value] + rest else rest
      else rest
  }

  /** The `eventType` values are exactly the non-empty `v` with a parameter `eventType=v`. */
  lemma {:induction false} EventTypeValuesAre(pairs: seq<string>, v: string)
    ensures v in EventTypeValues(pairs) <==> v != "" && "eventType=" + v in pairs
  {
    if pairs != [] {
      EventTypeValuesAre(pairs[1..], v);
      var p := "eventType=" + v;
      assert p == "eventType" + ['='] + v;
      SplitOnceOf("eventType", v, '=');
      if '=' in pairs[0] {
        var (name, value) := SplitOnce(pairs[0], '=');
        if name == "eventType" && value != "" {
          assert pairs[0] == "eventType" + ['='] + value;
        }
      }
      assert pairs == [pairs[0]] + pairs[1..];
    }
  }

  /** The event types named by the pieces of one value: each stripped, blanks dropped. */
  function TypesOf(items: seq<string>): set<string> {
    if items == [] then {}
    else
      var last := Strip(items[|items| - 1]);
      TypesOf(items[..|items| - 1]) + (if last != "" then {last} else {})
  }

  lemma TypesOfSnoc(items: seq<string>, j: nat)
    requires j < |items|
    ensures TypesOf(items[..j + 1]) == TypesOf(items[..j]) + (if Strip(items[j]) != "" then {Strip(items[j])} else {})
  {
    assert items[..j + 1][..j] == items[..j];
  }

  /** The event types the values name: each split on `,`, then as `TypesOf`. */
  function AcceptedTypes(values: seq<string>): set<string> {
    if values == [] then {}
    else AcceptedTypes(values[..|values| - 1]) + TypesOf(Split(values[|values| - 1], ','))
  }

  /** The `eventType` values of a query, leading `?` characters dropped. */
  function QueryValues(query: string): seq<string> {
    EventTypeValues(Split(LStripChar(query, '?'), '&'))
  }

  lemma AcceptedTypesSnoc(values: seq<string>, i: nat)
    requires i < |values|
    ensures AcceptedTypes(values[..i + 1]) == AcceptedTypes(values[..i]) + TypesOf(Split(values[i], ','))
  {
    assert values[..i + 1][..i] == values[..i];
  }

  /**
   * `_listener_accepts_event`: a missing or blank query accepts everything; so does one with
   * no `eventType` value, or whose values name no type; otherwise the event type must be
   * one of those named.
   */
  function ListenerAccepts(query: Option<string>, eventType: string): (r: bool)
    ensures query.Some? && eventType in AcceptedTypes(QueryValues(query.value)) ==> r
    ensures !r <==>
      && query.Some? && !AllSpace(query.value)
      && QueryValues(query.value) != []
      && AcceptedTypes(QueryValues(query.value)) != {}
      && eventType !in AcceptedTypes(QueryValues(query.value))
  {
    StripEmptyIffBlank(query.GetOr(""));
    if query.None? || Strip(query.value) == "" then true
    else
      var values := QueryValues(query.value);
      if values == [] then true
      else
        var accepted := AcceptedTypes(values);
        accepted == {} || eventType in accepted
  }

  /** No query, or a blank one, accepts every event type. */
  lemma BlankQueryAcceptsAll(query: Option<string>, eventType: string)
    requires query.None? || AllSpace(query.value)
    ensures ListenerAccepts(query, eventType)
  {
    if query.Some? {
      StripEmptyIffBlank(query.value);
    }
  }

  /** A query without a non-blank `eventType` parameter accepts every event type. */
  lemma NoEventTypeAcceptsAll(query: string, eventType: string)
    requires forall v: string | v != "" :: "eventType=" + v !in Split(LStripChar(query, '?'), '&')
    ensures ListenerAccepts(Some(query), eventType)
  {
    var values := QueryValues(query);
    if values != [] {
      EventTypeValuesAre(Split(LStripChar(query, '?'), '&'), values[0]);
    }
  }

  /** A blank query has no parameter at all, so no `eventType` value. */
  lemma BlankQueryHasNoValues(query: string)
    requires AllSpace(query)
    ensures QueryValues(query) == []
  {
    if query != "" {
      assert !IsSpace('?');
    }
    assert LStripChar(query, '?') == query;
    assert '&' !in query && '=' !in query by {
      assert !IsSpace('&') && !IsSpace('=');
    }
    SplitPiece(query, '&');
    assert EventTypeValues([query]) == [];
  }

  /** A leading `?` is dropped before the parameters are read. */
  lemma QuestionMarkDropped(query: string)
    ensures QueryValues("?" + query) == QueryValues(query)
  {
    assert ("?" + query)[1..] == query;
  }

  /**
   * A non-blank query with the same `eventType` values as another, which has none when it is
   * blank, accepts the same event types.
   */
  lemma SameValuesSameAnswer(a: string, b: string, eventType: string)
    requires Strip(a) != "" && QueryValues(a) == QueryValues(b)
    requires Strip(b) == "" ==> QueryValues(b) == []
    ensures ListenerAccepts(Some(a), eventType) == ListenerAccepts(Some(b), eventType)
  {
  }

  /** A query that starts with `?` is judged as the query after it. */
  lemma QuestionMarkPrefix(q: string, query: string, eventType: string)
    requires q != "" && q[0] == '?' && q[1..] == query
    ensures ListenerAccepts(Some(q), eventType) == ListenerAccepts(Some(query), eventType)
  {
    assert LStripChar(q, '?') == LStripChar(query, '?');
    NamedQueryNotBlank(q);
    if Strip(query) == "" {
      StripEmptyIffBlank(query);
      BlankQueryHasNoValues(query);
    }
    SameValuesSameAnswer(q, query, eventType);
  }

  /** Leading `?` characters make no difference. */
  lemma QuestionMarkIgnored(query: string, eventType: string)
    ensures ListenerAccepts(Some("?" + query), eventType) == ListenerAccepts(Some(query), eventType)
  {
    QuestionMarkPrefix("?" + query, query, eventType);
  }

  /** Plain type names give back exactly themselves. */
  lemma {:induction false} TypesOfTokens(names: seq<string>)
    requires forall i | 0 <= i < |names| :: Token(names[i], ',')
    ensures TypesOf(names) == set w | w in names
  {
    if names != [] {
      var m := |names| - 1;
      TypesOfTokens(names[..m]);
      StripUnpadded(names[m]);
      assert names == names[..m] + [names[m]];
    }
  }

  /** The parameter name holds none of the query's delimiters. */
  lemma EventTypeKey()
    ensures '=' !in "eventType" && '&' !in "eventType=" && "eventType="[0] == 'e'
    ensures "eventType=" == "eventType" + ['=']
  {
  }

  /** A query whose first character is not whitespace is not blank. */
  lemma NamedQueryNotBlank(q: string)
    requires q != "" && !IsSpace(q[0])
    ensures Strip(q) != ""
  {
    StripEmptyIffBlank(q);
  }

  /** A query made of one parameter `name=value` has that parameter's value, if any. */
  lemma SingleParameterQuery(name: string, value: string)
    requires name != "" && name[0] != '?' && '=' !in name && '&' !in name && '&' !in value
    ensures QueryValues(name + ['='] + value) == if name == "eventType" && value != "" then [value] else []
  {
    var q := name + ['='] + value;
    assert LStripChar(q, '?') == q;
    assert '&' !in q by {
      assert forall c | c in q :: c in name || c == '=' || c in value;
    }
    SplitPiece(q, '&');
    OneParameter(name, value);
  }

  /** The query `eventType=A,B,...` has the one value `A,B,...`. */
  lemma SubscriptionValues(names: seq<string>)
    requires |names| >= 1
    requires forall i | 0 <= i < |names| :: Token(names[i], ',') && '&' !in names[i]
    ensures QueryValues("eventType=" + Join(names, ',')) == [Join(names, ',')]
  {
    var joined := Join(names, ',');
    EventTypeKey();
    JoinAvoids(names, ',', '&');
    assert joined != "" by {
      JoinStartsWith(names, ',');
    }
    SingleParameterQuery("eventType", joined);
  }

  /** A single parameter `name=value` yields its value exactly when it is a non-blank `eventType`. */
  lemma OneParameter(name: string, value: string)
    requires '=' !in name
    ensures EventTypeValues([name + ['='] + value]) == if name == "eventType" && value != "" then [value] else []
  {
    var p := name + ['='] + value;
    SplitOnceOf(name, value, '=');
    assert [p][1..] == [];
  }

  /**
   * A query `eventType=A,B,...` over plain type names accepts exactly those types: the
   * subscription filter round-trips through the query text.
   */
  lemma SubscribedTypes(names: seq<string>, eventType: string)
    requires |names| >= 1
    requires forall i | 0 <= i < |names| :: Token(names[i], ',') && '&' !in names[i]
    ensures ListenerAccepts(Some("eventType=" + Join(names, ',')), eventType) <==> eventType in names
  {
    var joined := Join(names, ',');
    var q := "eventType=" + joined;
    assert QueryValues(q) == [joined] by {
      SubscriptionValues(names);
    }
    assert Strip(q) != "" by {
      EventTypeKey();
      NamedQueryNotBlank(q);
    }
    assert TypesOf(Split(joined, ',')) == set w | w in names by {
      SplitJoin(names, ',');
      TypesOfTokens(names);
    }
    OneValueDecides(q, joined, eventType);
    var types := TypesOf(Split(joined, ','));
    assert names[0] in types;
  }

  /** A non-blank query with the one value `v` accepts what `v` names, or anything if it names nothing. */
  lemma OneValueDecides(query: string, v: string, eventType: string)
    requires Strip(query) != "" && QueryValues(query) == [v]
    ensures var types := TypesOf(Split(v, ','));
      ListenerAccepts(Some(query), eventType) <==> types == {} || eventType in types
  {
    assert [v][..0] == [];
    assert AcceptedTypes([v]) == TypesOf(Split(v, ','));
  }

  /** A join starts with its first part. */
  lemma JoinStartsWith(parts: seq<string>, sep: char)
    requires |parts| >= 1
    ensures |Join(parts, sep)| >= |parts[0]|
  {
  }

  /** The inner loop: the stripped, non-blank pieces of one value added to `before`. */
  method AddTypes(before: set<string>, items: seq<string>) returns (accepted: set<string>)
    ensures accepted == before + TypesOf(items)
  {
    accepted := before;
    var j := 0;
    while j < |items|
      invariant 0 <= j <= |items|
      invariant accepted == before + TypesOf(items[..j])
    {
      var normalized := Strip(items[j]);
      TypesOfSnoc(items, j);
      if normalized != "" {
        accepted := accepted + {normalized};
      }
      j := j + 1;
    }
    assert items[..j] == items;
  }

  /** The outer loop: the types named by every value, each split on `,`. */
  method CollectAccepted(values: seq<string>) returns (accepted: set<string>)
    ensures accepted == AcceptedTypes(values)
  {
    accepted := {};
    var i := 0;
    while i < |values|
      invariant 0 <= i <= |values|
      invariant accepted == AcceptedTypes(values[..i])
    {
      accepted := AddTypes(accepted, Split(values[i], ','));
      AcceptedTypesSnoc(values, i);
      i := i + 1;
    }
    assert values[..i] == values;
  }

  /**
   * `_listener_accepts_event`: the accepted types are collected value by value and piece by
   * piece, and the verdict is the one `ListenerAccepts` gives.
   */
  method ListenerAcceptsEvent(listener: HubListenerRecord, eventType: string) returns (accepts: bool)
    ensures accepts == ListenerAccepts(listener.query, eventType)
  {
    if listener.query.None? || Strip(listener.query.value) == "" {
      return true;
    }
    var rawQuery := LStripChar(listener.query.value, '?');
    var eventTypeFilters := EventTypeValues(Split(rawQuery, '&'));
    assert eventTypeFilters == QueryValues(listener.query.value);
    if eventTypeFilters == [] {
      return true;
    }
    var accepted := CollectAccepted(eventTypeFilters);
    if accepted == {} {
      return true;
    }
    return eventType in accepted;
  }

  // ---------------------------------------------------------------------------------------
  // Event ids

  /** `str(n).zfill(5)`: the counter in decimal, left-padded with zeros to five characters. */
  function EventId(n: nat): (r: string)
    ensures |r| == if |NatToString(n)| < 5 then 5 else |NatToString(n)|
    ensures r == Repeat('0', |r| - |NatToString(n)|) + NatToString(n)
    ensures |r| >= 5 && |r| >= |NatToString(n)| && AllDigits(r)
    ensures r[|r| - |NatToString(n)|..] == NatToString(n)
  {
    var s := NatToString(n);
    var r := ZFill(s, 5);
    LeadingZeros(|r| - |s|, s);
    r
  }

  /** An event id reads back as its counter value, and is never cut short. */
  lemma EventIdDecimal(n: nat)
    ensures AllDigits(EventId(n)) && DecimalValue(EventId(n)) == n
    ensures |EventId(n)| == if |NatToString(n)| < 5 then 5 else |NatToString(n)|
    ensures EventId(n) == Repeat('0', |EventId(n)| - |NatToString(n)|) + NatToString(n)
    ensures |EventId(n)| >= 5 && |EventId(n)| >= |NatToString(n)|
    ensures EventId(n)[|EventId(n)| - |NatToString(n)|..] == NatToString(n)
  {
    var s := NatToString(n);
    var r := EventId(n);
    LeadingZeros(|r| - |s|, s);
    DecimalRoundTrip(n);
  }

  /** Different counter values give different event ids. */
  lemma EventIdsDistinct(m: nat, n: nat)
    requires m != n
    ensures EventId(m) != EventId(n)
  {
    EventIdDecimal(m);
    EventIdDecimal(n);
  }

  /** The first event id is `00001`. */
  lemma FirstEventId()
    ensures EventId(1) == "00001"
  {
  }

  // ---------------------------------------------------------------------------------------
  // Notifications and their fan-out

  datatype EventKind = Create | AttributeValueChange | StateChange | Delete

  /** The `eventType` literal each notification class carries. */
  function EventTypeName(kind: EventKind): string {
    match kind
    case Create => "ServiceOrderCreateNotification"
    case AttributeValueChange => "ServiceOrderAttributeValueChangeNotification"
    case StateChange => "ServiceOrderStateChangeNotification"
    case Delete => "ServiceOrderDeleteNotification"
  }

  /** The four event types are four different strings. */
  lemma EventTypeNamesDistinct(a: EventKind, b: EventKind)
    requires a != b
    ensures EventTypeName(a) != EventTypeName(b)
  {
    assert |EventTypeName(Create)| == 30;
    assert |EventTypeName(AttributeValueChange)| == 44;
    assert |EventTypeName(StateChange)| == 35;
    assert |EventTypeName(Delete)| == 30;
    assert EventTypeName(Create)[13] != EventTypeName(Delete)[13];
  }

  /** The notification payload: id, time, type and a copy of the order. */
  datatype Notification = Notification(eventId: string, eventTime: DateTime, eventType: string, serviceOrder: Order)

  /** One publication: the notification sent to a listener's callback. */
  datatype Delivery = Delivery(callback: string, listenerId: string, eventType: string, payload: Notification)

  /**
   * The listener filter for event type `eventType`, as a predicate on listeners. The fan-out
   * below is stated for any such predicate; `_emit` uses this one.
   */
  function Accepting(eventType: string): HubListenerRecord -> bool {
    (l: HubListenerRecord) => ListenerAccepts(l.query, eventType)
  }

  lemma AcceptingIs(eventType: string, l: HubListenerRecord)
    ensures Accepting(eventType)(l) == ListenerAccepts(l.query, eventType)
  {
  }

  /** The publication a listener gets for notification `n`, if `accepts` lets it through. */
  function DeliveryTo(l: HubListenerRecord, n: Notification, accepts: HubListenerRecord -> bool): seq<Delivery> {
    if accepts(l) then [Delivery(l.callback, l.id, n.eventType, n)] else []
  }

  /** The publications `_emit` makes, listener by listener, skipping those not let through. */
  function Deliveries(listeners: seq<HubListenerRecord>, n: Notification, accepts: HubListenerRecord -> bool): (r: seq<Delivery>)
    ensures |r| <= |listeners|
    ensures forall i | 0 <= i < |r| :: r[i].payload == n && r[i].eventType == n.eventType
  {
    if listeners == [] then []
    else Deliveries(listeners[..|listeners| - 1], n, accepts) + DeliveryTo(listeners[|listeners| - 1], n, accepts)
  }

  /** One more listener adds its own publication, if any, at the end. */
  lemma DeliveriesSnoc(listeners: seq<HubListenerRecord>, i: nat, n: Notification, accepts: HubListenerRecord -> bool)
    requires i < |listeners|
    ensures Deliveries(listeners[..i + 1], n, accepts) == Deliveries(listeners[..i], n, accepts) + DeliveryTo(listeners[i], n, accepts)
  {
    assert listeners[..i + 1][..i] == listeners[..i];
  }

  /**
   * Every publication goes to a listener that is let through, carrying the notification
   * unchanged, and every such listener gets one.
   */
  lemma {:induction false} DeliveriesAreAccepting(
    listeners: seq<HubListenerRecord>, n: Notification, accepts: HubListenerRecord -> bool, d: Delivery)
    ensures d in Deliveries(listeners, n, accepts) <==>
      exists l | l in listeners :: accepts(l) && d == Delivery(l.callback, l.id, n.eventType, n)
  {
    if listeners != [] {
      var init := listeners[..|listeners| - 1];
      DeliveriesAreAccepting(init, n, accepts, d);
      assert listeners == init + [listeners[|listeners| - 1]];
    }
  }

  /** Each publication goes to one of the given listeners. */
  lemma DeliveredToListed(listeners: seq<HubListenerRecord>, n: Notification, accepts: HubListenerRecord -> bool, i: nat)
    requires i < |Deliveries(listeners, n, accepts)|
    ensures exists k | 0 <= k < |listeners| :: Deliveries(listeners, n, accepts)[i].listenerId == listeners[k].id
  {
    var d := Deliveries(listeners, n, accepts)[i];
    DeliveriesAreAccepting(listeners, n, accepts, d);
  }

  /** No listener with its own id is published to twice. */
  lemma {:induction false} DeliveredOnce(listeners: seq<HubListenerRecord>, n: Notification, accepts: HubListenerRecord -> bool)
    requires forall i, j | 0 <= i < j < |listeners| :: listeners[i].id != listeners[j].id
    ensures forall i, j | 0 <= i < j < |Deliveries(listeners, n, accepts)| ::
      Deliveries(listeners, n, accepts)[i].listenerId != Deliveries(listeners, n, accepts)[j].listenerId
  {
    if listeners != [] {
      var m := |listeners| - 1;
      var init := listeners[..m];
      var before := Deliveries(init, n, accepts);
      var all := Deliveries(listeners, n, accepts);
      DeliveredOnce(init, n, accepts);
      assert all == before + DeliveryTo(listeners[m], n, accepts);
      forall i, j | 0 <= i < j < |all| ensures all[i].listenerId != all[j].listenerId {
        if j >= |before| {
          assert all[j].listenerId == listeners[m].id;
          DeliveredToListed(init, n, accepts, i);
          assert all[i] == before[i];
        } else {
          assert all[i] == before[i] && all[j] == before[j];
        }
      }
    }
  }

  class NotificationService {
    const store: InMemoryStore
    /** The value `next` gives the event-id counter. */
    var eventIdSequence: nat
    /** Every publication made so far, in order. */
    ghost var published: seq<Delivery>

    constructor(store: InMemoryStore)
      ensures this.store == store && eventIdSequence == 1 && published == []
    {
      this.store := store;
      eventIdSequence := 1;
      published := [];
    }

    /** `_next_event_id`: the counter's value, zero-padded; the counter moves on by one. */
    method NextEventId() returns (id: string)
      modifies this
      ensures id == EventId(old(eventIdSequence))
      ensures eventIdSequence == old(eventIdSequence) + 1 && published == old(published)
    {
      id := ZFill(NatToString(eventIdSequence), 5);
      eventIdSequence := eventIdSequence + 1;
    }

    /** `_publish_to_listener`, abstracted: the publication is recorded and cannot fail. */
    method PublishToListener(callback: string, payload: Notification, eventType: string, listenerId: string)
      modifies this
      ensures published == old(published) + [Delivery(callback, listenerId, eventType, payload)]
      ensures eventIdSequence == old(eventIdSequence)
    {
      published := published + [Delivery(callback, listenerId, eventType, payload)];
    }

    /** One turn of `_emit`'s loop: the listener is published to if it accepts the event. */
    method OfferToListener(listener: HubListenerRecord, notification: Notification)
      modifies this
      ensures published == old(published) + DeliveryTo(listener, notification, Accepting(notification.eventType))
      ensures eventIdSequence == old(eventIdSequence)
    {
      var accepts := ListenerAcceptsEvent(listener, notification.eventType);
      AcceptingIs(notification.eventType, listener);
      if accepts {
        PublishToListener(listener.callback, notification, notification.eventType, listener.id);
      }
    }

    /** `_emit`: publishes to every accepting listener, in registration order. */
    method Emit(notification: Notification)
      requires store.ListenerKeysStored()
      modifies this
      ensures published == old(published) +
        Deliveries(ValuesInOrder(store.listenerKeys, store.hubListeners), notification, Accepting(notification.eventType))
      ensures eventIdSequence == old(eventIdSequence)
    {
      var listeners := store.ListHubListeners();
      var i := 0;
      while i < |listeners|
        invariant 0 <= i <= |listeners|
        invariant published == old(published) + Deliveries(listeners[..i], notification, Accepting(notification.eventType))
        invariant eventIdSequence == old(eventIdSequence)
      {
        OfferToListener(listeners[i], notification);
        DeliveriesSnoc(listeners, i, notification, Accepting(notification.eventType));
        i := i + 1;
      }
      assert listeners[..i] == listeners;
    }

    /** `emit_service_order_create`, and the three below: a fresh event id, then the fan-out. */
    method EmitServiceOrderCreate(serviceOrder: Order, now: DateTime)
      requires store.ListenerKeysStored()
      modifies this
      ensures eventIdSequence == old(eventIdSequence) + 1
      ensures published == old(published) + Deliveries(ValuesInOrder(store.listenerKeys, store.hubListeners),
        Notification(EventId(old(eventIdSequence)), now, EventTypeName(Create), serviceOrder),
        Accepting(EventTypeName(Create)))
    {
      var eventId := NextEventId();
      Emit(Notification(eventId, now, EventTypeName(Create), serviceOrder));
    }

    method EmitServiceOrderAttributeValueChange(serviceOrder: Order, now: DateTime)
      requires store.ListenerKeysStored()
      modifies this
      ensures eventIdSequence == old(eventIdSequence) + 1
      ensures published == old(published) + Deliveries(ValuesInOrder(store.listenerKeys, store.hubListeners),
        Notification(EventId(old(eventIdSequence)), now, EventTypeName(AttributeValueChange), serviceOrder),
        Accepting(EventTypeName(AttributeValueChange)))
    {
      var eventId := NextEventId();
      Emit(Notification(eventId, now, EventTypeName(AttributeValueChange), serviceOrder));
    }

    method EmitServiceOrderStateChange(serviceOrder: Order, now: DateTime)
      requires store.ListenerKeysStored()
      modifies this
      ensures eventIdSequence == old(eventIdSequence) + 1
      ensures published == old(published) + Deliveries(ValuesInOrder(store.listenerKeys, store.hubListeners),
        Notification(EventId(old(eventIdSequence)), now, EventTypeName(StateChange), serviceOrder),
        Accepting(EventTypeName(StateChange)))
    {
      var eventId := NextEventId();
      Emit(Notification(eventId, now, EventTypeName(StateChange), serviceOrder));
    }

    method EmitServiceOrderDelete(serviceOrder: Order, now: DateTime)
      requires store.ListenerKeysStored()
      modifies this
      ensures eventIdSequence == old(eventIdSequence) + 1
      ensures published == old(published) + Deliveries(ValuesInOrder(store.listenerKeys, store.hubListeners),
        Notification(EventId(old(eventIdSequence)), now, EventTypeName(Delete), serviceOrder),
        Accepting(EventTypeName(Delete)))
    {
      var eventId := NextEventId();
      Emit(Notification(eventId, now, EventTypeName(Delete), serviceOrder));
    }
  }
}
