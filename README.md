# TMF641 Service Ordering — a Dafny model

This project models the core of a TM Forum TMF641 Service Ordering demo service:

- the shared in-memory store of service orders and hub listeners, with its two id counters;
- the service-order service:
  - creation with the server-managed fields filled in;
  - listing through filters, and retrieval;
  - RFC 7386 merge-patching;
  - deletion;
- the payload policy of the create and patch models:
  - server-managed and non-patchable fields;
  - fields patchable only while the order is `acknowledged`;
  - the element rules of the collections;
- the list query engine:
  - the `fields` selection parser;
  - exact-match and date-range filters, combined with AND;
  - projection onto the declared field names;
- the listener hub (register, unregister, location);
- the notification emitter:
  - the zero-padded event-id counter;
  - the listener `eventType` filter;
  - the fan-out of one notification to every accepting listener;
- the PATCH media-type check of the routes, and their list-filter map.

Modules follow the program's structure:

| module | file | what it holds |
|---|---|---|
| `Wrappers` | `wrappers.dfy` | `Option`, `Result` and `Outcome`, plus the error kinds the source raises |
| `JsonValue` | `json.dfy` | JSON-like trees (`Json`), including date-times as a value kind |
| `Text` | `text.dfy` | Python string operations: `strip`, `split`, `rsplit`, `lower`, `str(n)`, `zfill`, `rstrip("/")` |
| `Schema` | `schema.dfy` | the pydantic models as field tables, and validation (`Conforms`) |
| `Policy` | `policy.dfy` | the model validators of the create and patch payloads |
| `JsonMergePatch` | `merge_patch.dfy` | `_merge_patch`, and the MergePatch function of section 2 of RFC 7386 |
| `Query` | `query.dfy` | the query service |
| `Store` | `store.dfy` | `InMemoryStore`, a class whose maps and counters its methods update |
| `Hub` | `hub.dfy` | `HubService` |
| `Notification` | `notification.dfy` | `NotificationService` |
| `OrderService` | `order_service.dfy` | `ServiceOrderService` |
| `Routes` | `routes.dfy` | `_validate_patch_content_type` and the filter map |

A stored order is kept as its `model_dump(exclude_none=True)` (`Schema.StoredForm`): a member map with no null member at any depth reached through a declared model or list-of-models field (`Schema.IsOrder`). The dumps are driven by the field tables: `Schema.DumpTree` drops null members and recurses into the declared nested models; `Schema.FullTree` adds every unset declared field as null, at every such depth. The service keeps as a class invariant (`ServiceOrderService.Valid`) that every stored order:

- conforms to the ServiceOrder model;
- is filed under a decimal id the counter has already issued;
- has a location.

## Model

| member | source | states |
|---|---|---|
| JsonMergePatch.MergePatch | api-project/app/services/service_order_service.py:102-133 | an object patch always yields an object |
| JsonMergePatch.NonObjectPatchReplaces | api-project/app/services/service_order_service.py:111-112 | a patch that is not an object is returned verbatim |
| JsonMergePatch.ArrayPatchReplacesArray | api-project/app/services/service_order_service.py:111-112 | arrays are replaced wholesale, never merged element-wise |
| JsonMergePatch.NullMemberRemoves | api-project/app/services/service_order_service.py:119-121 | a null member removes its key, whether or not the target had it |
| JsonMergePatch.UnnamedMembersKept | api-project/app/services/service_order_service.py:117-118 | a target member the patch does not name keeps its value, and no key is invented |
| JsonMergePatch.ScalarMemberReplaces | api-project/app/services/service_order_service.py:131 | a non-null, non-object member replaces the target's value |
| JsonMergePatch.ObjectMemberMerges | api-project/app/services/service_order_service.py:123-129 | an object member is merged recursively into the target's member, or into `{}` when that is not an object |
| JsonMergePatch.NonObjectTargetIsEmpty | api-project/app/services/service_order_service.py:114-115 | a target that is not an object is merged as `{}` |
| JsonMergePatch.MergePatchIdempotent | api-project/app/services/service_order_service.py:102-133 | merging the same patch twice equals merging it once |
| JsonMergePatch.MergePatchIsRfc7386 | api-project/app/services/service_order_service.py:102-133 | `_merge_patch` equals the MergePatch pseudocode of section 2 of RFC 7386 |
| JsonMergePatch.MergeLoopApplies | api-project/app/services/service_order_service.py:118-131 | the key loop, run over distinct keys in any order, applies exactly those members |
| JsonMergePatch.MergeLoopIsMergePatch | api-project/app/services/service_order_service.py:117-133 | the key loop over all patch keys, in any order, computes MergePatch |
| JsonMergePatch.EmptyPatchIsIdentity | api-project/app/services/service_order_service.py:117-133 | the empty patch leaves an object target unchanged |
| JsonValue.NullFreeByGet | api-project/app/services/query_service.py:57 | two null-free member maps that read the same through `get` are equal |
| Schema.CreateFieldFacts | api-project/app/models/service_order.py:225 | a create payload requires `orderItem`, a list of create items with at least one element |
| Schema.ItemCreateFieldFacts | api-project/app/models/service_order.py:181-189 | a create item requires `action` (an action value), `id` (a string) and `service` (a service restriction) |
| Schema.FullDump | api-project/app/services/query_service.py:68 | `exclude_none=False`: the stored members plus every declared field, null when unset, each member dumped in full at every declared depth |
| Schema.GetDump | api-project/app/services/query_service.py:57-68 | each member of either dump is that member's own dump: null members dropped, or unset declared fields null, in the nested models too |
| Schema.DumpNullFree | api-project/app/services/query_service.py:57 | an `exclude_none` dump holds no null member |
| Schema.DumpTreeIdempotent | api-project/app/services/query_service.py:57 | dumping a dump again changes nothing, at any depth |
| Schema.DumpFullTree | api-project/app/services/service_order_service.py:75-82 | the `exclude_none` dump of the full dump is the `exclude_none` dump: the nulls the full dump adds are all dropped again |
| Schema.ConformsDump | api-project/app/services/service_order_service.py:82 | a tree passes field validation iff its `exclude_none` dump does |
| Schema.FullTreeConforms | api-project/app/services/service_order_service.py:75-82 | the full dump of a conforming tree conforms: every null it adds is in an optional field |
| Schema.StoredFormClean | api-project/app/services/service_order_service.py:82-83 | the stored form is a fixed point of the dump and holds no null member |
| Schema.OrderScalarMember | api-project/app/models/service_order.py:154-178 | every order field outside `note`, `orderItem`, `orderRelationship` and `relatedParty` is dumped as it is |
| Schema.CreateScalarMember | api-project/app/models/service_order.py:219-233 | every create-payload field outside the nested ones is dumped as it is |
| Schema.StoredScalar | api-project/app/services/service_order_service.py:82-83 | a plain order member reads the same in the stored form as in the validated data |
| Schema.FullDumpGet | api-project/app/services/query_service.py:68 | each member of an order's full dump is the full dump of the order's member |
| Schema.OrderItemField | api-project/app/models/service_order.py:167 | an order's `orderItem` is a list of ServiceOrderItem models |
| Schema.ItemStateField | api-project/app/models/service_order.py:151 | an order item's `state` is one of the item states |
| Schema.Revalidate | api-project/app/services/service_order_service.py:82 | accepted iff the data conforms to ServiceOrder; the result is the data's stored form, with no null member at any declared depth, and a conforming order |
| Schema.DumpRoundTrip | api-project/app/services/service_order_service.py:75-82 | validating the full dump of a conforming order gives the order back |
| Text.Strip | api-project/app/services/query_service.py:26 | `strip()`: no longer than the string, and neither starting nor ending with whitespace |
| Text.StripTrimmed | api-project/app/services/query_service.py:26 | `strip()` gives a slice of the string with only whitespace cut from before and after it |
| Text.TrimmedOfRStrip | api-project/app/services/query_service.py:26 | `rstrip()` cuts only trailing whitespace, keeping the rest in place |
| Text.TrimmedOfSpaceFirst | api-project/app/services/query_service.py:26 | cutting one more leading whitespace character keeps the result a trimmed slice |
| Text.Split | api-project/app/services/query_service.py:26 | `split(sep)`: at least one piece, and no piece holds the separator |
| Text.Lower | api-project/app/api/routes_service_order.py:85 | `lower()`: the same length, each character lower-cased |
| Text.RStripChar | api-project/app/services/service_order_service.py:18 | `rstrip(c)`: a prefix of the string, without a trailing `c`, dropping only `c`s |
| Text.NonBlankStrippedMembers | api-project/app/services/query_service.py:26 | a name is kept iff it is the non-empty `strip()` of some piece |
| Text.NonBlankStrippedAppend | api-project/app/services/query_service.py:26 | the kept names of two runs of pieces come one after the other, in order |
| Text.StripEmptyIffBlank | api-project/app/models/service_order.py:52 | `strip()` is empty iff the string is all whitespace |
| Text.SplitJoin | api-project/app/services/query_service.py:26 | splitting a separator-joined list gives the list back |
| Text.JoinSplit | api-project/app/services/query_service.py:26 | joining the pieces of a split gives the string back |
| Text.RSplitOnce | api-project/app/services/query_service.py:46 | `rsplit(sep, 1)`: the string is the two halves around the last separator |
| Text.RSplitOnceOf | api-project/app/services/query_service.py:46 | `a + sep + b` splits at its last separator into `a` and `b` when `b` has none |
| Text.LStripChar | api-project/app/services/notification_service.py:145 | `lstrip(c)` drops exactly the leading run of `c` |
| Text.NatToString | api-project/app/repositories/memory_store.py:32 | `str(n)`: a non-empty digit string without a leading zero |
| Text.DecimalRoundTrip | api-project/app/repositories/memory_store.py:32 | reading `str(n)` as a decimal gives `n` |
| Text.NatToStringInjective | api-project/app/repositories/memory_store.py:30-32 | different counter values give different ids |
| Text.ZFill | api-project/app/services/notification_service.py:72 | `zfill(w)` pads with zeros on the left to width `w` and never truncates |
| Text.LeadingZeros | api-project/app/services/notification_service.py:72 | leading zeros do not change a decimal value |
| Text.NormalizeResourcePath | api-project/app/services/service_order_service.py:18 | `rstrip("/") or default`: non-empty, no trailing `/`; a path of slashes only (or empty) gives the default; any other path loses exactly its trailing slashes |
| Text.NormalizeIdempotent | api-project/app/services/service_order_service.py:18 | normalising a normalised path changes nothing |
| Text.Location | api-project/app/services/service_order_service.py:28 | a location splits at its last `/` back into resource path and id |
| Policy.IsNonEmpty | api-project/app/models/service_order.py:51-52 | true iff the value is set and not all whitespace |
| Policy.HasReference | api-project/app/models/service_order.py:55-56 | true iff some argument is non-empty |
| Policy.HasReferenceIsSomeNonBlank | api-project/app/models/service_order.py:55-56 | `_has_reference` agrees with "some value is neither unset nor blank" |
| Policy.HasReferenceOfTwo | api-project/app/models/service_order.py:55-56 | two values have a reference iff one of them is non-empty |
| Policy.HasReferenceOfThree | api-project/app/models/service_order.py:55-56 | three values have a reference iff one of them is non-empty |
| Policy.RelatedPartyOk | api-project/app/models/service_order.py:63-68 | accepted iff the role is a non-blank string and so is one of id, href, name |
| Policy.NoteOk | api-project/app/models/service_order.py:73-74 | accepted iff the date is set and author and text are non-blank strings |
| Policy.OrderRelationshipOk | api-project/app/models/service_order.py:81-84 | accepted iff the type is a non-blank string and so is id or href |
| Policy.PlaceOk | api-project/app/models/service_order.py:88-92 | accepted iff the role is a non-blank string and so is id or href |
| Policy.ServiceRelationshipOk | api-project/app/models/service_order.py:99-107 | accepted iff the type is a non-blank string and the service is set with a non-blank id or href |
| Policy.CharacteristicOk | api-project/app/models/service_order.py:109-117 | accepted iff name and valueType are non-blank strings and the value is set |
| Policy.ItemRelationshipOk | api-project/app/models/service_order.py:206-214 | accepted iff the type and the id are non-blank strings |
| Policy.ItemKeysCheckAsWritten | api-project/app/models/service_order.py:247-251 | the item scan as written: TypeError iff `orderItem` is present and neither list, string nor object |
| Policy.NullOrderItemRaisesTypeError | api-project/app/models/service_order.py:247 | `"orderItem": null` makes the as-written scans raise TypeError; the corrected scans pass it |
| Policy.ItemKeysCheck | api-project/app/models/service_order.py:247-251 | refused iff some order item object holds a forbidden key |
| Policy.ItemKeysCheckAgrees | api-project/app/models/service_order.py:324-335 | wherever the as-written scan does not crash, the corrected one agrees with it |
| Policy.BeforeCreateRefuses | api-project/app/models/service_order.py:236-253 | refused, as an invalid request, iff some member is server-managed or some order item object has `state` |
| Policy.ValidateCreate | api-project/app/models/service_order.py:219-260 | an accepted create payload yields its `exclude_none` dump, nested models included, with priority "4" when absent |
| Policy.CreateRejectsServerManaged | api-project/app/models/service_order.py:242-245 | a payload naming a server-managed field is refused, null or not |
| Policy.CreateRejectsItemState | api-project/app/models/service_order.py:247-251 | a payload whose order item object carries `state` is refused |
| Policy.CreateNeedsItems | api-project/app/models/service_order.py:181-225 | an accepted payload has at least one order item; each is an object with an action value, an id and a service, and no state |
| Policy.CreateItemShape | api-project/app/models/service_order.py:181-189 | a conforming create item has an action value, a string id and a service object |
| Policy.CreateItemRules | api-project/app/models/service_order.py:193-212 | a non-`add` item names its service by id or href; an appointment has id or href; each item relationship has a type and an id |
| Policy.CollectionRules | api-project/app/models/service_order.py:59-84 | related party: role, and id, href or name; note: date, author and text; order relationship: type, and id or href |
| Policy.ServiceRestrictionRules | api-project/app/models/service_order.py:87-117 | place: role, and id or href; specification: id or href; service relationship: type and a service reference; characteristic: name, valueType and value |
| Policy.CreateServiceRules | api-project/app/models/service_order.py:215 | every item service of an accepted create payload satisfies the service restriction rules |
| Policy.CreateDumpGet | api-project/app/services/service_order_service.py:25 | each member of the create dump is that member's dump, nested nulls dropped; priority is "4" when the payload does not name it |
| Policy.CreateDumpScalarGet | api-project/app/services/service_order_service.py:25 | a plain member reads the same in the create dump as in the payload |
| Policy.CreateDumpDefaults | api-project/app/services/service_order_service.py:25-37 | the dump holds the payload's set priority and `@type`, and its requested completion date |
| Policy.CreateDumpMembers | api-project/app/services/service_order_service.py:25 | the dump holds no null member at any declared depth and is its own dump; plain non-null members are kept as they are; priority is "4" when the payload does not name it |
| Policy.StateRule | api-project/app/models/service_order.py:347-377 | refused iff the context state, stripped, is not acknowledged and some conditional field is non-null; no context or no state skips the rule |
| Policy.ValidatePatch | api-project/app/models/service_order.py:294-377 | an accepted patch yields the payload itself (the `exclude_unset` dump) |
| Policy.PatchRejectsNonPatchable | api-project/app/models/service_order.py:319-322 | a patch naming a non-patchable field is refused |
| Policy.BeforePatchRefuses | api-project/app/models/service_order.py:313-337 | refused, as an invalid request, iff some member is non-patchable or some order item object has `id`, `action` or `state` |
| Policy.PatchRejectsItemKeys | api-project/app/models/service_order.py:324-335 | a patch whose order item object has `id`, `action` or `state` is refused |
| Policy.PatchRejectsConditional | api-project/app/models/service_order.py:361-375 | outside the acknowledged state, a non-null conditional field is refused |
| Policy.PatchContextIrrelevant | api-project/app/models/service_order.py:348-353 | without conditional fields, or in contexts that skip the rule, the verdict does not depend on the context |
| Policy.PatchAccepted | api-project/app/models/service_order.py:313-377 | an accepted patch names no non-patchable field or item key, passes the collection and item rules, and names a conditional field only while acknowledged |
| Policy.EmptyPatchAccepted | api-project/app/models/service_order.py:294-377 | the empty patch passes every patch rule, whatever the order's state |
| Query.ParseFields | api-project/app/services/query_service.py:22-29 | None stays None; otherwise the stripped non-blank pieces, in order, so a name comes back iff it is the non-empty strip of a comma-separated piece; InvalidFieldSelection iff every piece is blank |
| Query.ParseFieldsRoundTrip | api-project/app/services/query_service.py:26 | parsing a comma-joined list of clean names gives the list back |
| Query.OpOf | api-project/app/services/query_service.py:18 | an operator is recognised iff it is gt, lt, gte or lte |
| Query.ParseInstant | api-project/app/services/query_service.py:112-121 | the normalised text is parsed; a naive result is UTC; a parse failure is InvalidFilter |
| Query.ZuluIsUtcOffset | api-project/app/services/query_service.py:114 | a trailing `Z` reads as `+00:00` |
| Query.NormalizeIso | api-project/app/services/query_service.py:112-114 | never ends in `Z`; empty iff the value is blank; a stripped value ending in `Z` gains `+00:00` in its place, any other is just stripped |
| Query.Resolve | api-project/app/services/query_service.py:36-51 | an exact field is an exact match; a date range is on a date field with an operator and a parsed bound; anything else is InvalidFilter |
| Query.ResolveDateKey | api-project/app/services/query_service.py:45-48 | `dateField.op` resolves to that range, or fails with the bound's parse error |
| Query.DateKeyIsNotExact | api-project/app/services/query_service.py:9-17 | a dotted date key is never an exact-match field |
| Query.ResolvedKeys | api-project/app/services/query_service.py:45-51 | only an exact field or a `dateField.op` key ever resolves |
| Query.NormalizeScalar | api-project/app/services/query_service.py:104-109 | empty iff the field is unset or empty; a non-empty result is the field's own string |
| Query.Compare | api-project/app/services/query_service.py:89-95 | at the bound only gte and lte pass; elsewhere gt and gte pass exactly above it, lt and lte exactly below |
| Query.Matches | api-project/app/services/query_service.py:83-109 | an exact filter passes iff the field holds that string, or the field is unset and the value is empty; a date range passes only a date-time |
| Query.UnsetDateNeverMatches | api-project/app/services/query_service.py:84-86 | an order whose date field is unset never passes a range on it |
| Query.NaiveIsUtc | api-project/app/services/query_service.py:88 | a naive stored date compares as the same reading at offset zero |
| Query.BoundInclusion | api-project/app/services/query_service.py:89-95 | gt and lt are strict; gte and lte are not |
| Query.ResolveAll | api-project/app/services/query_service.py:36-51 | succeeds iff every filter resolves; then it maps every key to its resolved filter |
| Query.WhereKeep | api-project/app/services/query_service.py:36-48 | one more filter step on an AND of filters is the AND of all of them |
| Query.KeepNone | api-project/app/services/query_service.py:35 | no filter keeps every order |
| Query.Keep | api-project/app/services/query_service.py:35-53 | never more orders than given |
| Query.Filtered | api-project/app/services/query_service.py:32-53 | InvalidFilter iff some filter does not resolve; otherwise at most the given orders |
| Query.ApplyOrderFilters | api-project/app/services/query_service.py:32-53 | the loop over the filters computes `Filtered`, whatever order it visits them in |
| Query.OneUnresolvedFails | api-project/app/services/query_service.py:51 | one unsupported filter fails the whole call |
| Query.KeepIsSubsequence | api-project/app/services/query_service.py:35-53 | the result is an order-preserving subsequence of the input |
| Query.KeepMembers | api-project/app/services/query_service.py:35-53 | an order is kept iff it is in the input and passes every filter |
| Query.FilteredSemantics | api-project/app/services/query_service.py:32-53 | fails iff some filter does not resolve; otherwise keeps exactly the input orders passing all filters |
| Query.ExactFilterKeeps | api-project/app/services/query_service.py:37-42 | an exact filter keeps exactly the orders whose normalised value equals the filter value |
| Query.UnparseableBoundFails | api-project/app/services/query_service.py:81 | an unparseable date bound fails the call, also when there is no order |
| Query.ProjectOrder | api-project/app/services/query_service.py:56-69 | no selection gives the stored form; an unknown name gives InvalidFieldSelection; otherwise exactly the selected keys, each the full dump of its field, null when unset |
| Query.ProjectionLossless | api-project/app/services/query_service.py:56-69 | projecting an order loses nothing: no selection gives the order, and each selected field dumps back to the order's member |
| Query.ProjectionErrorIndependent | api-project/app/services/query_service.py:61-66 | whether a selection is refused does not depend on the order |
| Query.ProjectOrders | api-project/app/services/query_service.py:72-75 | each order projected in turn; fails iff some projection fails |
| Store.ValuesInOrderAreValues | api-project/app/repositories/memory_store.py:38-40 | the values in key order are exactly the map's values |
| Store.CounterIdsDistinct | api-project/app/repositories/memory_store.py:25-32 | different counter values give different ids |
| Store.FreshCounterId | api-project/app/repositories/memory_store.py:30-32 | an id the counter has not yet issued is not among the issued ones |
| Store.InMemoryStore.constructor | api-project/app/repositories/memory_store.py:23-28 | both counters start at 1; both maps start empty |
| Store.InMemoryStore.NextServiceOrderId | api-project/app/repositories/memory_store.py:30-32 | the order counter's value in decimal; that counter moves on by one and nothing else changes |
| Store.InMemoryStore.NextHubId | api-project/app/repositories/memory_store.py:34-36 | the hub counter's value in decimal; that counter moves on by one and nothing else changes |
| Store.InMemoryStore.ListServiceOrders | api-project/app/repositories/memory_store.py:38-40 | every stored order, once each, in insertion order |
| Store.InMemoryStore.GetServiceOrder | api-project/app/repositories/memory_store.py:42-45 | the stored order, or None iff the id is unknown |
| Store.InMemoryStore.CreateServiceOrder | api-project/app/repositories/memory_store.py:47-55 | no id: ValueError; a known id: Conflict, nothing changes; otherwise exactly that entry is added |
| Store.InMemoryStore.UpdateServiceOrder | api-project/app/repositories/memory_store.py:57-65 | no id: ValueError; an unknown id: KeyError, nothing changes; otherwise only that entry is replaced |
| Store.InMemoryStore.DeleteServiceOrder | api-project/app/repositories/memory_store.py:67-72 | returns whether the id was present; afterwards it is absent and the rest is unchanged |
| Store.InMemoryStore.ListHubListeners | api-project/app/repositories/memory_store.py:74-76 | every listener, in registration order |
| Store.InMemoryStore.GetHubListener | api-project/app/repositories/memory_store.py:78-80 | the stored listener, or None iff the id is unknown |
| Store.InMemoryStore.CreateHubListener | api-project/app/repositories/memory_store.py:82-87 | a fresh id from the hub counter; the callback and query are stored unchanged; the order side is untouched |
| Store.InMemoryStore.DeleteHubListener | api-project/app/repositories/memory_store.py:89-94 | returns whether the id was present; afterwards it is absent and the rest is unchanged |
| Hub.CounterIdHasNoSlash | api-project/app/services/hub_service.py:25 | a counter-issued id holds no `/` |
| Hub.HubService.constructor | api-project/app/services/hub_service.py:8-10 | the resource path is normalised, with `/hub` as the default |
| Hub.HubService.RegisterListener | api-project/app/services/hub_service.py:12-17 | the store-assigned fresh id, with the callback and query unchanged; the listener is stored |
| Hub.HubService.UnregisterListener | api-project/app/services/hub_service.py:19-22 | NotFound iff the id is unknown; otherwise the listener is removed |
| Hub.HubService.LocationFor | api-project/app/services/hub_service.py:24-25 | the location splits back into the resource path and the listener id |
| Hub.FirstRegistration | api-project/tests/test_hub_api.py:9-14 | a fresh hub gives its first listener id "1" at "/hub/1" |
| Notification.EventTypeValuesAre | api-project/app/services/notification_service.py:146-147 | the collected values are exactly the non-blank values of `eventType=` parameters |
| Notification.EventTypeValues | api-project/app/services/notification_service.py:146-147 | no more values than parameters, none of them empty |
| Notification.ListenerAccepts | api-project/app/services/notification_service.py:135-160 | refused iff the query is set and not blank, has `eventType` values naming some type, and the event type is not among them |
| Notification.BlankQueryAcceptsAll | api-project/app/services/notification_service.py:142-143 | a missing or blank query accepts every event |
| Notification.NoEventTypeAcceptsAll | api-project/app/services/notification_service.py:145-149 | a query without an `eventType` value accepts every event |
| Notification.QuestionMarkIgnored | api-project/app/services/notification_service.py:145 | a leading `?` does not change the verdict |
| Notification.TypesOfTokens | api-project/app/services/notification_service.py:152-156 | clean comma-separated names are collected as themselves |
| Notification.SingleParameterQuery | api-project/app/services/notification_service.py:146-147 | a one-parameter query yields its value iff the parameter is a non-blank `eventType` |
| Notification.SubscriptionValues | api-project/app/services/notification_service.py:146-147 | `eventType=a,b,…` yields the one value `a,b,…` |
| Notification.SubscribedTypes | api-project/app/services/notification_service.py:150-160 | `eventType=a,b,…` accepts an event iff its type is one of the names |
| Notification.OneValueDecides | api-project/app/services/notification_service.py:150-160 | with one `eventType` value, an empty type set accepts all; otherwise membership decides |
| Notification.ListenerAcceptsEvent | api-project/app/services/notification_service.py:135-160 | the nested loops compute `ListenerAccepts` |
| Notification.CollectAccepted | api-project/app/services/notification_service.py:151-156 | the outer loop collects exactly `AcceptedTypes` of the `eventType` values |
| Notification.AddTypes | api-project/app/services/notification_service.py:153-156 | the inner loop adds exactly the stripped, non-blank pieces of one value |
| Notification.EventIdDecimal | api-project/app/services/notification_service.py:70-72 | an event id is `str(n)` left-padded with zeros to exactly five characters, never cut; it is all digits and reads back as its counter value |
| Notification.EventId | api-project/app/services/notification_service.py:70-72 | `str(n).zfill(5)`: exactly five characters, or `str(n)` itself when longer, made of zeros followed by `str(n)` |
| Notification.EventIdsDistinct | api-project/app/services/notification_service.py:70-72 | different counter values give different event ids |
| Notification.FirstEventId | api-project/app/services/notification_service.py:35 | the first event id is "00001" |
| Notification.EventTypeNamesDistinct | api-project/app/models/notifications.py:21-42 | the four event types are four different literals |
| Notification.DeliveriesAreAccepting | api-project/app/services/notification_service.py:84-88 | a delivery is made iff it goes to a listed listener that accepts the event, carrying the notification |
| Notification.Deliveries | api-project/app/services/notification_service.py:84-88 | at most one publication per listener, each carrying the notification and its event type |
| Notification.DeliveredToListed | api-project/app/services/notification_service.py:84-88 | every delivery goes to a listed listener |
| Notification.DeliveredOnce | api-project/app/services/notification_service.py:84-88 | with distinct listener ids, no listener receives two deliveries |
| Notification.NotificationService.constructor | api-project/app/services/notification_service.py:32-36 | the event counter starts at 1; nothing is published |
| Notification.NotificationService.NextEventId | api-project/app/services/notification_service.py:70-72 | the zero-padded counter value; the counter moves on by one |
| Notification.NotificationService.PublishToListener | api-project/app/services/notification_service.py:90-132 | the publication is recorded at the end of the log |
| Notification.NotificationService.OfferToListener | api-project/app/services/notification_service.py:85-88 | one turn of the loop: publish iff the listener accepts the event |
| Notification.NotificationService.Emit | api-project/app/services/notification_service.py:74-88 | the log grows by the deliveries to the accepting listeners, in store order |
| Notification.NotificationService.EmitServiceOrderCreate | api-project/app/services/notification_service.py:38-44 | a fresh event id; the create event type; then the fan-out |
| Notification.NotificationService.EmitServiceOrderAttributeValueChange | api-project/app/services/notification_service.py:46-52 | a fresh event id; the attribute-change event type; then the fan-out |
| Notification.NotificationService.EmitServiceOrderStateChange | api-project/app/services/notification_service.py:54-60 | a fresh event id; the state-change event type; then the fan-out |
| Notification.NotificationService.EmitServiceOrderDelete | api-project/app/services/notification_service.py:62-68 | a fresh event id; the delete event type; then the fan-out |
| OrderService.AcknowledgeItems | api-project/app/services/service_order_service.py:39-41 | each item object gets state acknowledged, with its other members kept; other values are kept |
| OrderService.CreatedOrder | api-project/app/services/service_order_service.py:27-43 | the stored form of the built data, a conforming order; or InvalidRequest |
| OrderService.StoredIdentity | api-project/app/services/service_order_service.py:27-28 | the stored form keeps the id and href it is given |
| OrderService.CreatedIdentity | api-project/app/services/service_order_service.py:27-28 | the created order has the drawn id and its location |
| OrderService.CreatedStateAndDates | api-project/app/services/service_order_service.py:29-32 | state acknowledged, order date now, no completion date, no start date |
| OrderService.CreatedDefaults | api-project/app/services/service_order_service.py:33-37 | priority, expected completion date and `@type` are defaulted only when absent |
| OrderService.ItemsAcknowledgedKeeps | api-project/app/services/service_order_service.py:39-41 | the item loop touches no member but `orderItem` |
| OrderService.DefaultedKeeps | api-project/app/services/service_order_service.py:33-37 | the `setdefault` calls touch no member but the three they default |
| OrderService.AssignedMembers | api-project/app/services/service_order_service.py:27-32 | the six assigned members take their values; every other member of the dump is kept |
| OrderService.DefaultedMembers | api-project/app/services/service_order_service.py:33-37 | every present member is kept, null ones included; only absent priority, expected completion date and `@type` get their defaults |
| OrderService.ItemsAcknowledgedMembers | api-project/app/services/service_order_service.py:39-41 | the member set is unchanged; only a list of order items is rewritten, keeping its length |
| OrderService.CreatedDataKeys | api-project/app/services/service_order_service.py:25-41 | the built data holds the dump's members and every set or defaulted member; order items only when the dump has them |
| OrderService.CreatedKeeps | api-project/app/services/service_order_service.py:25-43 | every other member of the dump is kept |
| OrderService.CreatedItemsAcknowledged | api-project/app/services/service_order_service.py:39-43 | every order item object of the stored created order is acknowledged |
| OrderService.CreatedFromPayload | api-project/app/services/service_order_service.py:25-37 | from the raw payload: priority "4" and `@type` "ServiceOrder" unless given non-null; expected completion date is the requested completion date |
| OrderService.Restored | api-project/app/services/service_order_service.py:79-80 | the merged members, with the stored id and href written back |
| OrderService.Patched | api-project/app/services/service_order_service.py:69-83 | every failure of a patch is InvalidRequest |
| OrderService.PatchedIsMerged | api-project/app/services/service_order_service.py:74-82 | a non-empty accepted patch gives the stored form of the merged order |
| OrderService.PatchedIsOrder | api-project/app/services/service_order_service.py:78-82 | a patched order conforms again and keeps its id and href |
| OrderService.EmptyMergeIsIdentity | api-project/app/services/service_order_service.py:74-82 | merging the empty patch would change nothing, so skipping the write is sound |
| OrderService.EmptyPatchChangesNothing | api-project/app/services/service_order_service.py:69-74 | an empty patch is accepted in every state and leaves the order |
| OrderService.MergedGet | api-project/app/services/service_order_service.py:78-80 | writing back id and href changes no other member of the merge |
| OrderService.MergedMembers | api-project/app/services/service_order_service.py:75-80 | the merge keeps the stored id and href, drops members patched to null, and keeps unnamed members as the full dump has them |
| OrderService.PatchedSteps | api-project/app/services/service_order_service.py:69-82 | a refused patch is InvalidRequest, an empty one leaves the order, any other is merged and revalidated |
| OrderService.PatchSetsScalar | api-project/app/services/service_order_service.py:78 | a member patched to a plain value is stored as that value's dump |
| OrderService.PatchMergesObject | api-project/app/services/service_order_service.py:75-82 | a member patched to an object is stored as the dump of that object merged into the member |
| OrderService.PatchUnsetsNull | api-project/app/services/service_order_service.py:78 | a member patched to null is unset |
| OrderService.PatchKeepsUnnamed | api-project/app/services/service_order_service.py:75-82 | a member the patch does not name keeps its stored value |
| OrderService.MergedKeepsUnnamed | api-project/app/services/service_order_service.py:75-80 | a member the patch does not name dumps as before the merge |
| OrderService.MergedAgainGet | api-project/app/services/service_order_service.py:75-82 | each member reads the same after the same patch is merged and stored a second time |
| OrderService.MergedAgain | api-project/app/services/service_order_service.py:75-82 | merging the same patch into the stored merged order gives that order back |
| OrderService.MergeMembersOnly | api-project/app/services/service_order_service.py:114-117 | merging an object patch reads only its target's members |
| OrderService.MergeTreeCongruent | api-project/app/services/service_order_service.py:102-133 | merging one patch into two trees with the same dump gives two trees with the same dump |
| OrderService.MergeKeyCongruent | api-project/app/services/service_order_service.py:117-131 | the same, member by member |
| OrderService.MergeMemberCongruent | api-project/app/services/service_order_service.py:123-129 | the same, for one member's value |
| OrderService.MergeValueCongruent | api-project/app/services/service_order_service.py:123-129 | the same, for a value of one declared type |
| OrderService.PatchIdempotent | api-project/app/services/service_order_service.py:62-83 | sending an accepted patch again leaves the order as the first one did |
| OrderService.RequiredValue | api-project/app/services/service_order_service.py:96-99 | the value, or ValueError iff it is missing |
| OrderService.ServiceOrderService.constructor | api-project/app/services/service_order_service.py:16-18 | the resource path is normalised, with `/serviceOrder` as the default |
| OrderService.ServiceOrderService.CreateServiceOrder | api-project/app/services/service_order_service.py:20-45 | the counter moves on; the built order is stored under the fresh id and projected, or InvalidRequest with nothing stored; the invariant is kept |
| OrderService.ServiceOrderService.StoreCreated | api-project/app/services/service_order_service.py:23-44 | draws the id, builds and validates the order, and stores it under that id, which is fresh |
| OrderService.ServiceOrderService.AddIssued | api-project/app/services/service_order_service.py:44 | the store's create under a fresh issued id cannot conflict; the invariant is kept |
| OrderService.ServiceOrderService.ListServiceOrders | api-project/app/services/service_order_service.py:47-52 | the stored orders in insertion order, filtered, then projected |
| OrderService.ServiceOrderService.GetServiceOrder | api-project/app/services/service_order_service.py:54-60 | NotFound iff the id is unknown; otherwise the order projected |
| OrderService.ServiceOrderService.PatchServiceOrder | api-project/app/services/service_order_service.py:62-88 | NotFound for an unknown id; otherwise the order becomes its patched form, answered with its unchanged id and href; nothing else changes |
| OrderService.ServiceOrderService.DeleteServiceOrder | api-project/app/services/service_order_service.py:90-93 | NotFound iff the id is unknown; afterwards the order is absent and the rest is unchanged |
| OrderService.TickKeepsIssued | api-project/app/services/service_order_service.py:44 | adding an order under the id just drawn keeps the store invariant |
| OrderService.ReplaceKeepsIssued | api-project/app/services/service_order_service.py:83 | replacing an order by a conforming one keeps the store invariant |
| Routes.ValidatePatchContentType | api-project/app/api/routes_service_order.py:78-101 | passes iff the media type is merge-patch; missing, JSON Patch and other media types each fail with their own reason |
| Routes.MediaTypeClean | api-project/app/api/routes_service_order.py:85 | a media type has no `;`, no surrounding whitespace and no upper-case letter |
| Routes.MediaTypeIdempotent | api-project/app/api/routes_service_order.py:85 | the media type of a media type is itself |
| Routes.ParametersIgnored | api-project/app/api/routes_service_order.py:85 | parameters after `;` do not change the media type |
| Routes.CaseIgnored | api-project/app/api/routes_service_order.py:85 | letter case does not change the media type |
| Routes.CaseInsensitive | api-project/app/api/routes_service_order.py:85-87 | header values differing only in case get the same verdict |
| Routes.AcceptedWithParameters | api-project/app/api/routes_service_order.py:85-87 | an accepted value stays accepted with any parameters |
| Routes.PlainMediaType | api-project/app/api/routes_service_order.py:85 | a clean lower-case media type is its own media type |
| Routes.FilterParams | api-project/app/api/routes_service_order.py:24 | every query parameter except `fields`, with its value |

## Left out

- HTTP and FastAPI plumbing is not part of this model: routing, dependency injection, request-body parsing and status-code rendering (`error_handlers.py`, `routes_hub.py`, `main.py`, `api/health.py`). Errors are reported as their kinds (NotFound, InvalidRequest, InvalidFilter, …), not as status codes or messages.
- The service's create takes the dump of the validated payload. Turning a request body into a `ServiceOrderCreate` is the route's job. `Policy.ValidateCreate` models that validation, and `OrderService.CreatedFromPayload` connects the two.
- Locks, threads and the module-level singletons (`service_order_service.py:136-145`, `hub_service.py:28-32`) are left out. Everything is single-threaded, and stores are constructed explicitly.
- HTTP delivery in `_publish_to_listener` is network I/O. It is an abstract effect recorded in a ghost log, it never fails, and logging is dropped.
- Clock reads and ISO-8601 parsing are foreign operations. `now` is a parameter, and `datetime.fromisoformat` is a parameter `parse` that may fail. Date-times are a local reading plus an optional offset in integer units.
- The JSON-mode rendering of date-times in projections is left out. A projected order holds date-time values, not ISO strings.
- `parse_qs` percent-decoding and `+`-to-space are left out, as is `AnyHttpUrl` callback validation. The listener query is split on `&` and `=` only.
- `Text.Lower` lower-cases ASCII letters only, which is all the media types use. Python's full Unicode case mapping is not modelled.
- pydantic's `populate_by_name` is not modelled: only wire names (aliases) are read. Date-time fields accept only date-time values; string coercion is not modelled.
- The dumps recurse only through declared model and list-of-models fields. Values of undeclared (extra) members and of `Any`-typed fields (a characteristic's `value`) are kept as they are, nulls inside them included. Within those members the model does not decide whether pydantic drops a nested null.
- OrderService.MergedAgain: states that merging the same patch again stores the same order, not that the two merged dictionaries agree before validation. They can differ in nested nulls, which the full dump of the stored order adds back and validation drops again.
- `Schema.Conforms` checks declared field types, required fields and `min_length`. Extra members pass unchecked, as `extra="allow"` lets them.
- `OrderService.ServiceOrderService.PatchServiceOrder` proves that the store's Conflict, KeyError and ValueError branches cannot occur under the service invariant. So no error outcome models them at the service level.
- The create and patch models raise pydantic's ValidationError inside the service. `error_handlers.py` shows no handler for it, so over HTTP it would surface as a server error. The model reports InvalidRequest, which is what the tests expect.
- Notification triggering from create, patch or delete is not modelled: `service_order_service.py` contains no call to `NotificationService`.
- `settings.py`, `logging_config.py` and all logging are configuration and I/O, and are left out.

## Findings

| source | as written | input that shows it | evidently intended | confidence | as-written member | corrected member |
|---|---|---|---|---|---|---|
| api-project/app/models/service_order.py:247 | the create payload's item scan runs `enumerate(data.get("orderItem", []))`, which raises TypeError for a null or numeric `orderItem`; pydantic does not turn TypeError into a validation error | a create payload with `"orderItem": null` | a non-list `orderItem` is left to field validation and refused as invalid, as the collection helpers do with `value or []` | medium, not executed | Policy.ItemKeysCheckAsWritten, Policy.NullOrderItemRaisesTypeError | Policy.ItemKeysCheck |
| api-project/app/models/service_order.py:324 | the patch payload's item scan has the same `enumerate(data.get("orderItem", []))` | a patch payload with `"orderItem": null` | a null `orderItem` passes the scan: the field is optional (line 302), the state rule only looks at non-null values (lines 361-375), and the merge then removes the member; a non-list, non-null `orderItem` is left to field validation and refused as invalid | medium, not executed | Policy.ItemKeysCheckAsWritten, Policy.NullOrderItemRaisesTypeError | Policy.ItemKeysCheck |
