/**
 * The listener hub: registration and removal of notification listeners in the shared store,
 * and the location string of a registered listener.
 */
module Hub {
  import opened Wrappers
  import opened Text
  import opened Store

  /** The `Hub` resource returned for a registration. */
  datatype HubView = HubView(id: string, callback: string, query: Option<string>)

  const DEFAULT_HUB_PATH: string := "/hub"

  /** A counter-issued id holds no `/`, so its location always splits back into path and id. */
  lemma CounterIdHasNoSlash(n: nat)
    ensures '/' !in NatToString(n)
  {
  }

  class HubService {
    const store: InMemoryStore
    /** The resource path with trailing slashes removed, `/hub` when nothing is left. */
    const resourcePath: string

    constructor(store: InMemoryStore, resourcePath: string)
      ensures this.store == store
      ensures this.resourcePath == NormalizeResourcePath(resourcePath, DEFAULT_HUB_PATH)
      ensures this.resourcePath != "" && !EndsWith(this.resourcePath, '/')
    {
      this.store := store;
      this.resourcePath := NormalizeResourcePath(resourcePath, DEFAULT_HUB_PATH);
    }

    /**
     * `register_listener`: the store draws the id from the hub counter; the callback and the
     * query come back unchanged, and the listener is stored under the new id.
     */
    method RegisterListener(callback: string, query: Option<string>) returns (hub: HubView)
      requires store.Valid()
      modifies store
      ensures store.Valid()
      ensures hub == HubView(NatToString(old(store.hubSequence)), callback, query)
      ensures hub.id !in old(store.hubListeners)
      ensures store.hubListeners == old(store.hubListeners)[hub.id := HubListenerRecord(hub.id, callback, query)]
      ensures store.listenerKeys == old(store.listenerKeys) + [hub.id]
      ensures store.hubSequence == old(store.hubSequence) + 1
      ensures store.serviceOrderSequence == old(store.serviceOrderSequence)
      ensures store.serviceOrders == old(store.serviceOrders) && store.orderKeys == old(store.orderKeys)
    {
      var listener := store.CreateHubListener(callback, query);
      hub := HubView(listener.id, listener.callback, listener.query);
    }

    /** `unregister_listener`: NotFound for an unknown id; otherwise the listener is removed. */
    method UnregisterListener(listenerId: string) returns (r: Outcome)
      requires store.Valid()
      modifies store
      ensures store.Valid()
      ensures r.Fail? <==> listenerId !in old(store.hubListeners)
      ensures r.Fail? ==> r.error == NotFound
      ensures store.hubListeners == old(store.hubListeners) - {listenerId}
      ensures r.Fail? ==> store.hubListeners == old(store.hubListeners) && store.listenerKeys == old(store.listenerKeys)
      ensures store.listenerKeys == Remove(old(store.listenerKeys), listenerId)
      ensures store.hubSequence == old(store.hubSequence)
      ensures store.serviceOrderSequence == old(store.serviceOrderSequence)
      ensures store.serviceOrders == old(store.serviceOrders) && store.orderKeys == old(store.orderKeys)
    {
      var deleted := store.DeleteHubListener(listenerId);
      if !deleted {
        return Fail(NotFound);
      }
      r := Pass;
    }

    /** `location_for`: where a listener lives; the id can be read back off its end. */
    function LocationFor(listenerId: string): (r: string)
      ensures '/' !in listenerId ==> '/' in r && RSplitOnce(r, '/') == (resourcePath, listenerId)
    {
      Location(resourcePath, listenerId)
    }
  }

  /** A fresh hub gives its first listener the id `1`, found at `/hub/1`. */
  method FirstRegistration(callback: string, query: Option<string>) returns (hub: HubView, location: string)
    ensures hub == HubView("1", callback, query)
    ensures location == "/hub/1"
  {
    var store := new InMemoryStore();
    var service := new HubService(store, DEFAULT_HUB_PATH);
    hub := service.RegisterListener(callback, query);
    location := service.LocationFor(hub.id);
  }
}
