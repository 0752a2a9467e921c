/**
 * The in-memory store: service orders keyed by id and hub listeners keyed by id, each in a
 * dictionary that remembers insertion order, and two counters that hand out decimal ids.
 * Copies on the way in and out are free here: orders are values.
 */
module Store {
  import opened Wrappers
  import opened Text
  import opened JsonValue
  import opened Schema

  /** A registered listener: its id, callback address and optional filter query. */
  datatype HubListenerRecord = HubListenerRecord(id: string, callback: string, query: Option<string>)

  predicate Distinct(keys: seq<string>) {
    forall i, j | 0 <= i < j < |keys| :: keys[i] != keys[j]
  }

  /** The values of `m` in the order its keys were inserted, as `dict.values()` yields them. */
  function ValuesInOrder<V>(keys: seq<string>, m: map<string, V>): (r: seq<V>)
    requires forall i | 0 <= i < |keys| :: keys[i] in m
    ensures |r| == |keys|
    ensures forall i | 0 <= i < |keys| :: r[i] == m[keys[i]]
  {
    if keys == [] then [] else [m[keys[0]]] + ValuesInOrder(keys[1..], m)
  }

  /** When the key list holds exactly the keys of `m`, the listed values are exactly its values. */
  lemma ValuesInOrderAreValues<V>(keys: seq<string>, m: map<string, V>)
    requires forall k :: k in m <==> k in keys
    ensures forall v :: v in ValuesInOrder(keys, m) <==> v in m.Values
  {
    var r := ValuesInOrder(keys, m);
    forall v | v in m.Values ensures v in r {
      var k :| k in m && m[k] == v;
      var i :| 0 <= i < |keys| && keys[i] == k;
      assert r[i] == v;
    }
  }

  /** Appending a new key keeps the key list free of repeats. */
  lemma DistinctAppend(keys: seq<string>, k: string)
    requires Distinct(keys) && k !in keys
    ensures Distinct(keys + [k])
  {
  }

  /** The key list after `del d[k]`: `k` gone, the other keys in their order. */
  function Remove(keys: seq<string>, k: string): (r: seq<string>)
    ensures forall x :: x in r <==> x in keys && x != k
    ensures Distinct(keys) ==> Distinct(r)
    ensures k !in keys ==> r == keys
  {
    if keys == [] then []
    else if keys[0] == k then Remove(keys[1..], k)
    else
      var rest := Remove(keys[1..], k);
      assert Distinct(keys) ==> keys[0] !in rest;
      [keys[0]] + rest
  }

  /** The decimal text `str(n)` of the counter value `n` is an id no other value yields. */
  lemma CounterIdsDistinct(m: nat, n: nat)
    requires m != n
    ensures NatToString(m) != NatToString(n)
  {
    if NatToString(m) == NatToString(n) {
      NatToStringInjective(m, n);
    }
  }

  /** An id drawn from a counter at `n` is none of the ids drawn before it. */
  lemma FreshCounterId(ids: set<string>, n: nat)
    requires forall k | k in ids :: AllDigits(k) && DecimalValue(k) < n
    ensures NatToString(n) !in ids
  {
    DecimalRoundTrip(n);
  }

  class InMemoryStore {
    /** The value `next` gives the service-order counter, and the hub counter. */
    var serviceOrderSequence: nat
    var hubSequence: nat
    /** The order keys and the listener keys, in insertion order. */
    var orderKeys: seq<string>
    var serviceOrders: map<string, Order>
    var listenerKeys: seq<string>
    var hubListeners: map<string, HubListenerRecord>

    /**
     * Each dictionary's key list is its keys without repeats; an order is filed under its
     * own id; a listener is filed under its id, which the hub counter has already issued.
     */
    ghost predicate Valid()
      reads this
    {
      && serviceOrderSequence >= 1 && hubSequence >= 1
      && Distinct(orderKeys) && (forall k :: k in serviceOrders <==> k in orderKeys)
      && ListenersListed()
      && (forall k | k in serviceOrders :: Str(serviceOrders[k], "id") == Some(k))
      && (forall k | k in hubListeners :: hubListeners[k].id == k)
      && (forall k | k in hubListeners :: AllDigits(k) && DecimalValue(k) < hubSequence)
    }

    /** Every listed listener key is registered: enough to list the listeners. */
    ghost predicate ListenerKeysStored()
      reads this
    {
      forall i | 0 <= i < |listenerKeys| :: listenerKeys[i] in hubListeners
    }

    /** The listener key list is the listener keys, each once. */
    ghost predicate ListenersListed()
      reads this
    {
      ListenerKeysStored() && Distinct(listenerKeys) && forall k :: k in hubListeners <==> k in listenerKeys
    }

    constructor()
      ensures Valid()
      ensures serviceOrderSequence == 1 && hubSequence == 1
      ensures serviceOrders == map[] && hubListeners == map[]
      ensures orderKeys == [] && listenerKeys == []
    {
      serviceOrderSequence := 1;
      hubSequence := 1;
      orderKeys := [];
      serviceOrders := map[];
      listenerKeys := [];
      hubListeners := map[];
    }

    /** `next_service_order_id`: the counter's value in decimal; the counter moves on by one. */
    method NextServiceOrderId() returns (id: string)
      requires Valid()
      modifies this
      ensures Valid()
      ensures id == NatToString(old(serviceOrderSequence)) && DecimalValue(id) == old(serviceOrderSequence)
      ensures serviceOrderSequence == old(serviceOrderSequence) + 1
      ensures hubSequence == old(hubSequence)
      ensures serviceOrders == old(serviceOrders) && orderKeys == old(orderKeys)
      ensures hubListeners == old(hubListeners) && listenerKeys == old(listenerKeys)
    {
      id := NatToString(serviceOrderSequence);
      DecimalRoundTrip(serviceOrderSequence);
      serviceOrderSequence := serviceOrderSequence + 1;
    }

    /** `next_hub_id`: the same, on the hub counter. */
    method NextHubId() returns (id: string)
      requires Valid()
      modifies this
      ensures Valid()
      ensures id == NatToString(old(hubSequence)) && DecimalValue(id) == old(hubSequence)
      ensures hubSequence == old(hubSequence) + 1
      ensures serviceOrderSequence == old(serviceOrderSequence)
      ensures serviceOrders == old(serviceOrders) && orderKeys == old(orderKeys)
      ensures hubListeners == old(hubListeners) && listenerKeys == old(listenerKeys)
    {
      id := NatToString(hubSequence);
      DecimalRoundTrip(hubSequence);
      hubSequence := hubSequence + 1;
    }

    /** `list_service_orders`: every stored order, once each, in insertion order. */
    method ListServiceOrders() returns (r: seq<Order>)
      requires Valid()
      ensures r == ValuesInOrder(orderKeys, serviceOrders)
      ensures |r| == |orderKeys|
      ensures forall o :: o in r <==> o in serviceOrders.Values
    {
      r := ValuesInOrder(orderKeys, serviceOrders);
      ValuesInOrderAreValues(orderKeys, serviceOrders);
    }

    /** `get_service_order`: the stored order, or None for an unknown id. */
    method GetServiceOrder(serviceOrderId: string) returns (r: Option<Order>)
      requires Valid()
      ensures r.Some? <==> serviceOrderId in serviceOrders
      ensures r.Some? ==> r.value == serviceOrders[serviceOrderId] && Str(r.value, "id") == Some(serviceOrderId)
    {
      if serviceOrderId in serviceOrders {
        r := Some(serviceOrders[serviceOrderId]);
      } else {
        r := None;
      }
    }

    /**
     * `create_service_order`: a ValueError for an order without id, a Conflict for an id
     * already stored (nothing changes on either), otherwise the order is added under its id.
     */
    method CreateServiceOrder(serviceOrder: Order) returns (r: Result<Order>)
      requires Valid()
      modifies this
      ensures Valid()
      ensures serviceOrderSequence == old(serviceOrderSequence) && hubSequence == old(hubSequence)
      ensures hubListeners == old(hubListeners) && listenerKeys == old(listenerKeys)
      ensures Str(serviceOrder, "id").None? ==> r == Err(ValueError)
      ensures Str(serviceOrder, "id").Some? && Str(serviceOrder, "id").value in old(serviceOrders) ==>
        r == Err(Conflict)
      ensures r.Ok? <==> Str(serviceOrder, "id").Some? && Str(serviceOrder, "id").value !in old(serviceOrders)
      ensures r.Err? ==> serviceOrders == old(serviceOrders) && orderKeys == old(orderKeys)
      ensures r.Ok? ==>
        && Str(serviceOrder, "id").Some?
        && Str(serviceOrder, "id").value !in old(serviceOrders)
        && r.value == serviceOrder
        && serviceOrders == old(serviceOrders)[Str(serviceOrder, "id").value := serviceOrder]
        && orderKeys == old(orderKeys) + [Str(serviceOrder, "id").value]
    {
      var id := Str(serviceOrder, "id");
      if id.None? {
        return Err(ValueError);
      }
      if id.value in serviceOrders {
        return Err(Conflict);
      }
      serviceOrders := serviceOrders[id.value := serviceOrder];
      orderKeys := orderKeys + [id.value];
      r := Ok(serviceOrder);
    }

    /**
     * `update_service_order`: a ValueError for an order without id, a KeyError for an id
     * not stored, otherwise the entry under that id is replaced in place.
     */
    method UpdateServiceOrder(serviceOrder: Order) returns (r: Result<Order>)
      requires Valid()
      modifies this
      ensures Valid()
      ensures serviceOrderSequence == old(serviceOrderSequence) && hubSequence == old(hubSequence)
      ensures hubListeners == old(hubListeners) && listenerKeys == old(listenerKeys)
      ensures orderKeys == old(orderKeys)
      ensures Str(serviceOrder, "id").None? ==> r == Err(ValueError)
      ensures Str(serviceOrder, "id").Some? && Str(serviceOrder, "id").value !in old(serviceOrders) ==>
        r == Err(KeyError)
      ensures r.Ok? <==> Str(serviceOrder, "id").Some? && Str(serviceOrder, "id").value in old(serviceOrders)
      ensures r.Err? ==> serviceOrders == old(serviceOrders)
      ensures r.Ok? ==>
        && Str(serviceOrder, "id").Some?
        && Str(serviceOrder, "id").value in old(serviceOrders)
        && r.value == serviceOrder
        && serviceOrders == old(serviceOrders)[Str(serviceOrder, "id").value := serviceOrder]
    {
      var id := Str(serviceOrder, "id");
      if id.None? {
        return Err(ValueError);
      }
      if id.value !in serviceOrders {
        return Err(KeyError);
      }
      serviceOrders := serviceOrders[id.value := serviceOrder];
      r := Ok(serviceOrder);
    }

    /** `delete_service_order`: whether the id was stored; afterwards it is not. */
    method DeleteServiceOrder(serviceOrderId: string) returns (existed: bool)
      requires Valid()
      modifies this
      ensures Valid()
      ensures existed <==> serviceOrderId in old(serviceOrders)
      ensures serviceOrders == old(serviceOrders) - {serviceOrderId}
      ensures orderKeys == Remove(old(orderKeys), serviceOrderId)
      ensures serviceOrderSequence == old(serviceOrderSequence) && hubSequence == old(hubSequence)
      ensures hubListeners == old(hubListeners) && listenerKeys == old(listenerKeys)
    {
      existed := serviceOrderId in serviceOrders;
      if existed {
        serviceOrders := serviceOrders - {serviceOrderId};
        orderKeys := Remove(orderKeys, serviceOrderId);
      } else {
        assert serviceOrders == serviceOrders - {serviceOrderId};
      }
    }

    /**
     * `list_hub_listeners`: the listeners in registration order; with `ListenersListed`,
     * every listener exactly once (`ValuesInOrderAreValues`).
     */
    method ListHubListeners() returns (r: seq<HubListenerRecord>)
      requires ListenerKeysStored()
      ensures r == ValuesInOrder(listenerKeys, hubListeners)
    {
      r := ValuesInOrder(listenerKeys, hubListeners);
    }

    /** `get_hub_listener`: the listener, or None for an unknown id. */
    method GetHubListener(listenerId: string) returns (r: Option<HubListenerRecord>)
      requires Valid()
      ensures r.Some? <==> listenerId in hubListeners
      ensures r.Some? ==> r.value == hubListeners[listenerId] && r.value.id == listenerId
    {
      if listenerId in hubListeners {
        r := Some(hubListeners[listenerId]);
      } else {
        r := None;
      }
    }

    /**
     * `create_hub_listener`: draws the next hub id, which no stored listener has, and stores
     * the callback and query under it. The order counter is not touched.
     */
    method CreateHubListener(callback: string, query: Option<string>) returns (listener: HubListenerRecord)
      requires Valid()
      modifies this
      ensures Valid()
      ensures listener == HubListenerRecord(NatToString(old(hubSequence)), callback, query)
      ensures listener.id !in old(hubListeners)
      ensures hubSequence == old(hubSequence) + 1 && serviceOrderSequence == old(serviceOrderSequence)
      ensures hubListeners == old(hubListeners)[listener.id := listener]
      ensures listenerKeys == old(listenerKeys) + [listener.id]
      ensures serviceOrders == old(serviceOrders) && orderKeys == old(orderKeys)
    {
      FreshCounterId(hubListeners.Keys, hubSequence);
      var listenerId := NextHubId();
      DistinctAppend(listenerKeys, listenerId);
      listener := HubListenerRecord(listenerId, callback, query);
      hubListeners := hubListeners[listenerId := listener];
      listenerKeys := listenerKeys + [listenerId];
    }

    /** `delete_hub_listener`: whether the id was registered; afterwards it is not. */
    method DeleteHubListener(listenerId: string) returns (existed: bool)
      requires Valid()
      modifies this
      ensures Valid()
      ensures existed <==> listenerId in old(hubListeners)
      ensures hubListeners == old(hubListeners) - {listenerId}
      ensures listenerKeys == Remove(old(listenerKeys), listenerId)
      ensures serviceOrderSequence == old(serviceOrderSequence) && hubSequence == old(hubSequence)
      ensures serviceOrders == old(serviceOrders) && orderKeys == old(orderKeys)
    {
      existed := listenerId in hubListeners;
      if existed {
        hubListeners := hubListeners - {listenerId};
        listenerKeys := Remove(listenerKeys, listenerId);
      } else {
        assert hubListeners == hubListeners - {listenerId};
      }
    }
  }
}
