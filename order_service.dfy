/**
 * The service-order service: creation with the server-managed fields filled in, listing
 * through the filters, retrieval, RFC 7386 merge-patching and deletion, all over the shared
 * in-memory store. The clock is a parameter `now`; ISO-8601 parsing is a parameter `parse`.
 */
module OrderService {
  import opened Wrappers
  import opened Text
  import opened JsonValue
  import opened Schema
  import opened Policy
  import opened Store
  import opened Query
  import opened JsonMergePatch

  const DEFAULT_ORDER_PATH: string := "/serviceOrder"

  /** The `{"id": ..., "href": ...}` answer to a patch. */
  datatype OrderRef = OrderRef(id: string, href: string)

  // ---------------------------------------------------------------------------------------
  // Creation

  /** `d.setdefault(k, v)`: the member is kept when present, even when it is null. */
  function SetDefault(d: map<string, Json>, k: string, v: Json): map<string, Json> {
    if k in d then d else d[k := v]
  }

  /** The order items with each object's state set to acknowledged; other values kept. */
  function AcknowledgeItems(items: seq<Json>): (r: seq<Json>)
    ensures |r| == |items|
    ensures forall i | 0 <= i < |items| && items[i].JObj? ::
      && r[i].JObj?
      && r[i].members.Keys == items[i].members.Keys + {"state"}
      && r[i].members["state"] == JStr(ACKNOWLEDGED)
      && forall k | k in items[i].members && k != "state" :: r[i].members[k] == items[i].members[k]
    ensures forall i | 0 <= i < |items| && !items[i].JObj? :: r[i] == items[i]
  {
    seq(|items|, i requires 0 <= i < |items| =>
      if items[i].JObj? then JObj(items[i].members["state" := JStr(ACKNOWLEDGED)]) else items[i])
  }

  /** The members `create_service_order` sets or defaults itself. */
  const CREATE_SET_FIELDS: set<string> := {
    "id", "href", "state", "orderDate", "completionDate", "startDate", "priority",
    "expectedCompletionDate", "@type", "orderItem"
  }

  /** The assignments: id, location, acknowledged state, order date, no completion or start date. */
  function Assigned(dump: map<string, Json>, id: string, href: string, now: DateTime): map<string, Json> {
    dump["id" := JStr(id)]["href" := JStr(href)]["state" := JStr(ACKNOWLEDGED)]
      ["orderDate" := JTime(now)]["completionDate" := JNull]["startDate" := JNull]
  }

  /** The `setdefault` calls: priority, expected completion date and `@type`. */
  function Defaulted(d: map<string, Json>): map<string, Json> {
    var d := SetDefault(d, "priority", JStr("4"));
    var d := SetDefault(d, "expectedCompletionDate", Get(d, "requestedCompletionDate"));
    SetDefault(d, "@type", JStr("ServiceOrder"))
  }

  /** The loop over the order items, setting each object's state to acknowledged. */
  function ItemsAcknowledged(d: map<string, Json>): map<string, Json> {
    if "orderItem" in d && d["orderItem"].JArr? then d["orderItem" := JArr(AcknowledgeItems(d["orderItem"].items))]
    else d
  }

  /**
   * The create payload's dump with the server-managed fields set: the id, its location, the
   * acknowledged state, the order date, no completion or start date, the defaults for
   * priority, expected completion date and `@type`, and acknowledged order items.
   */
  function CreatedData(dump: map<string, Json>, id: string, href: string, now: DateTime): map<string, Json> {
    ItemsAcknowledged(Defaulted(Assigned(dump, id, href, now)))
  }

  /** The order built from the payload's dump, validated as a ServiceOrder. */
  function CreatedOrder(dump: map<string, Json>, id: string, href: string, now: DateTime): (r: Result<Order>)
    ensures r.Ok? ==> r.value == StoredForm(CreatedData(dump, id, href, now)) && IsOrder(r.value)
    ensures r.Err? ==> r.error == InvalidRequest
  {
    Revalidate(CreatedData(dump, id, href, now))
  }

  /** A created order carries the id and href it was built with. */
  lemma CreatedOrderIdentity(dump: map<string, Json>, id: string, href: string, now: DateTime)
    requires CreatedOrder(dump, id, href, now).Ok?
    ensures var o := CreatedOrder(dump, id, href, now).value;
      IsOrder(o) && Str(o, "id") == Some(id) && Str(o, "href") == Some(href)
  {
    var d := CreatedData(dump, id, href, now);
    CreatedIdentity(dump, id, href, now);
    StoredIdentity(d, id, href);
  }

  /** The stored form keeps the id and href it is given. */
  lemma StoredIdentity(d: map<string, Json>, id: string, href: string)
    requires Get(d, "id") == JStr(id) && Get(d, "href") == JStr(href)
    ensures Str(StoredForm(d), "id") == Some(id) && Str(StoredForm(d), "href") == Some(href)
  {
    StoredScalar(d, "id");
    StoredScalar(d, "href");
  }

  /** The item loop touches no member but the order items. */
  lemma ItemsAcknowledgedKeeps(d: map<string, Json>, k: string)
    requires k != "orderItem"
    ensures Get(ItemsAcknowledged(d), k) == Get(d, k)
  {
  }

  /** The defaults touch no member but the three they default. */
  lemma DefaultedKeeps(d: map<string, Json>, k: string)
    requires k != "priority" && k != "expectedCompletionDate" && k != "@type"
    ensures Get(Defaulted(d), k) == Get(d, k)
  {
  }

  /** The assignments set their six members and keep every other member of the dump. */
  lemma AssignedMembers(dump: map<string, Json>, id: string, href: string, now: DateTime)
    ensures var r := Assigned(dump, id, href, now);
      && r.Keys == dump.Keys + {"id", "href", "state", "orderDate", "completionDate", "startDate"}
      && (forall k | k in dump && k !in {"id", "href", "state", "orderDate", "completionDate", "startDate"} ::
            r[k] == dump[k])
      && r["id"] == JStr(id) && r["href"] == JStr(href) && r["state"] == JStr(ACKNOWLEDGED)
      && r["orderDate"] == JTime(now) && r["completionDate"].JNull? && r["startDate"].JNull?
  {
  }

  /**
   * `setdefault` never overwrites: every member already present is kept, even a null one,
   * and only the absent ones among the three get their default.
   */
  lemma DefaultedMembers(d: map<string, Json>)
    ensures var r := Defaulted(d);
      && r.Keys == d.Keys + {"priority", "expectedCompletionDate", "@type"}
      && (forall k | k in d :: r[k] == d[k])
      && ("priority" !in d ==> r["priority"] == JStr("4"))
      && ("expectedCompletionDate" !in d ==> r["expectedCompletionDate"] == Get(d, "requestedCompletionDate"))
      && ("@type" !in d ==> r["@type"] == JStr("ServiceOrder"))
  {
  }

  /** The item loop keeps the member set, and rewrites only a list of order items, item for item. */
  lemma ItemsAcknowledgedMembers(d: map<string, Json>)
    ensures var r := ItemsAcknowledged(d);
      && r.Keys == d.Keys
      && (forall k | k in d && k != "orderItem" :: r[k] == d[k])
      && ("orderItem" in d && !d["orderItem"].JArr? ==> r["orderItem"] == d["orderItem"])
      && ("orderItem" in d && d["orderItem"].JArr? ==>
            r["orderItem"].JArr? && |r["orderItem"].items| == |d["orderItem"].items|)
  {
  }

  /**
   * The built data holds every member of the dump and all the members the service sets or
   * defaults; it holds order items iff the dump does.
   */
  lemma CreatedDataKeys(dump: map<string, Json>, id: string, href: string, now: DateTime)
    ensures CreatedData(dump, id, href, now).Keys == dump.Keys + (CREATE_SET_FIELDS - {"orderItem"})
  {
    var a := Assigned(dump, id, href, now);
    AssignedMembers(dump, id, href, now);
    DefaultedMembers(a);
    ItemsAcknowledgedMembers(Defaulted(a));
  }

  /** The order id and location of a created order. */
  lemma CreatedIdentity(dump: map<string, Json>, id: string, href: string, now: DateTime)
    ensures Get(CreatedData(dump, id, href, now), "id") == JStr(id)
    ensures Get(CreatedData(dump, id, href, now), "href") == JStr(href)
  {
    var a := Assigned(dump, id, href, now);
    DefaultedKeeps(a, "id");
    DefaultedKeeps(a, "href");
    ItemsAcknowledgedKeeps(Defaulted(a), "id");
    ItemsAcknowledgedKeeps(Defaulted(a), "href");
  }

  /** The state and dates of a created order. */
  lemma CreatedStateAndDates(dump: map<string, Json>, id: string, href: string, now: DateTime)
    ensures Get(CreatedData(dump, id, href, now), "state") == JStr(ACKNOWLEDGED)
    ensures Get(CreatedData(dump, id, href, now), "orderDate") == JTime(now)
    ensures Get(CreatedData(dump, id, href, now), "completionDate") == JNull
    ensures Get(CreatedData(dump, id, href, now), "startDate") == JNull
  {
    var a := Assigned(dump, id, href, now);
    forall k | k in {"state", "orderDate", "completionDate", "startDate"}
      ensures Get(CreatedData(dump, id, href, now), k) == Get(a, k)
    {
      DefaultedKeeps(a, k);
      ItemsAcknowledgedKeeps(Defaulted(a), k);
    }
  }

  /** The defaults of a created order. */
  lemma CreatedDefaults(dump: map<string, Json>, id: string, href: string, now: DateTime)
    ensures Get(CreatedData(dump, id, href, now), "priority") ==
      (if "priority" in dump then dump["priority"] else JStr("4"))
    ensures Get(CreatedData(dump, id, href, now), "expectedCompletionDate") ==
      (if "expectedCompletionDate" in dump then dump["expectedCompletionDate"]
       else Get(dump, "requestedCompletionDate"))
    ensures Get(CreatedData(dump, id, href, now), "@type") ==
      (if "@type" in dump then dump["@type"] else JStr("ServiceOrder"))
  {
    var a := Assigned(dump, id, href, now);
    ItemsAcknowledgedKeeps(Defaulted(a), "priority");
    ItemsAcknowledgedKeeps(Defaulted(a), "expectedCompletionDate");
    ItemsAcknowledgedKeeps(Defaulted(a), "@type");
  }

  /** Every other member of the dump is kept. */
  lemma CreatedKeeps(dump: map<string, Json>, id: string, href: string, now: DateTime, k: string)
    requires k !in CREATE_SET_FIELDS
    ensures Get(CreatedData(dump, id, href, now), k) == Get(dump, k)
  {
    var a := Assigned(dump, id, href, now);
    DefaultedKeeps(a, k);
    ItemsAcknowledgedKeeps(Defaulted(a), k);
  }

  /** Every order item object of a created order is in the acknowledged state. */
  lemma CreatedItemsAcknowledged(dump: map<string, Json>, id: string, href: string, now: DateTime, i: nat)
    requires i < |Items(dump, "orderItem")| && Items(dump, "orderItem")[i].JObj?
    ensures var o := StoredForm(CreatedData(dump, id, href, now));
      && |Items(o, "orderItem")| == |Items(dump, "orderItem")|
      && Items(o, "orderItem")[i].JObj?
      && Str(Items(o, "orderItem")[i].members, "state") == Some(ACKNOWLEDGED)
  {
    var d := CreatedData(dump, id, href, now);
    var acknowledged := AcknowledgeItems(dump["orderItem"].items);
    assert d["orderItem"] == JArr(acknowledged);
    OrderItemField();
    ItemStateField();
    GetDump(ServiceOrder, d, "orderItem");
    var item := acknowledged[i].members;
    GetDump(ServiceOrderItem, item, "state");
    assert Get(item, "state") == JStr(ACKNOWLEDGED);
  }

  /**
   * From the raw create payload to the stored defaults: a priority or `@type` the payload
   * leaves out or sends as null is defaulted, and the expected completion date, which no
   * payload may name, is the requested completion date.
   */
  lemma CreatedFromPayload(raw: map<string, Json>, id: string, href: string, now: DateTime)
    requires ValidateCreate(raw).Ok?
    ensures var d := CreatedData(ValidateCreate(raw).value, id, href, now);
      && Get(d, "priority") == (if Present(raw, "priority") then raw["priority"] else JStr("4"))
      && Get(d, "@type") == (if Present(raw, "@type") then raw["@type"] else JStr("ServiceOrder"))
      && Get(d, "expectedCompletionDate") == Get(raw, "requestedCompletionDate")
  {
    var dump := ValidateCreate(raw).value;
    assert dump == CreateDump(raw);
    assert "expectedCompletionDate" in CREATE_SERVER_MANAGED_FIELDS;
    if "expectedCompletionDate" in raw {
      CreateRejectsServerManaged(raw, "expectedCompletionDate");
    }
    CreateDumpDefaults(raw);
    CreatedDefaults(dump, id, href, now);
  }

  // ---------------------------------------------------------------------------------------
  // Patching

  /** The merged member map with the stored id and href written back. */
  function Restored(merged: map<string, Json>, o: Order): (r: map<string, Json>)
    ensures r.Keys == merged.Keys + {"id", "href"}
    ensures r["id"] == Get(o, "id") && r["href"] == Get(o, "href")
    ensures forall k | k in merged && k != "id" && k != "href" :: r[k] == merged[k]
  {
    merged["id" := Get(o, "id")]["href" := Get(o, "href")]
  }

  /** The patch merged into the full dump of the order, with the stored id and href written back. */
  function Merged(o: Order, patch: map<string, Json>): map<string, Json> {
    Restored(MergePatch(JObj(FullDump(o)), JObj(patch)).members, o)
  }

  /**
   * The order a patch leaves: the patch validated under the order's state, then, when it
   * names anything, merged into the order and validated as a ServiceOrder. An empty patch
   * leaves the order as it is.
   */
  function Patched(o: Order, payload: map<string, Json>): (r: Result<Order>)
    ensures r.Err? ==> r.error == InvalidRequest
  {
    var patch :- ValidatePatch(payload, Some(Str(o, "state")));
    if patch == map[] then Ok(o) else Revalidate(Merged(o, patch))
  }

  /** An accepted non-empty patch leaves the stored form of the merged order. */
  lemma PatchedIsMerged(o: Order, payload: map<string, Json>)
    requires Patched(o, payload).Ok? && payload != map[]
    ensures Patched(o, payload).value == StoredForm(Merged(o, payload))
  {
  }

  /** The steps of a patch: validation under the order's state, then, unless empty, the merge. */
  lemma PatchedSteps(o: Order, payload: map<string, Json>)
    ensures var p := ValidatePatch(payload, Some(Str(o, "state")));
      && (p.Err? ==> Patched(o, payload) == Err(InvalidRequest))
      && (p.Ok? && p.value == map[] ==> Patched(o, payload) == Ok(o))
      && (p.Ok? && p.value != map[] ==> Patched(o, payload) == Revalidate(Merged(o, p.value)))
  {
  }

  /** A patched order is a conforming order again, with the id and href it had. */
  lemma PatchedIsOrder(o: Order, payload: map<string, Json>)
    requires IsOrder(o) && Str(o, "id").Some? && Str(o, "href").Some?
    requires Patched(o, payload).Ok?
    ensures IsOrder(Patched(o, payload).value)
    ensures Str(Patched(o, payload).value, "id") == Str(o, "id")
    ensures Str(Patched(o, payload).value, "href") == Str(o, "href")
  {
    if payload != map[] {
      PatchedIsMerged(o, payload);
      StoredScalar(Merged(o, payload), "id");
      StoredScalar(Merged(o, payload), "href");
    }
  }

  /** Skipping the write for an empty patch is sound: merging nothing leaves the order. */
  lemma EmptyMergeIsIdentity(o: Order)
    requires IsOrder(o) && Str(o, "id").Some? && Str(o, "href").Some?
    ensures Revalidate(Merged(o, map[])) == Ok(o)
  {
    EmptyPatchIsIdentity(FullDump(o));
    var d := FullDump(o);
    GetDump(ServiceOrder, o, "id");
    GetDump(ServiceOrder, o, "href");
    OrderScalarMember("id", o["id"]);
    OrderScalarMember("href", o["href"]);
    assert Restored(d, o) == d;
    DumpRoundTrip(o);
  }

  /** An empty patch is accepted in every state and changes nothing. */
  lemma EmptyPatchChangesNothing(o: Order)
    ensures Patched(o, map[]) == Ok(o)
  {
    EmptyPatchAccepted(Some(Str(o, "state")));
  }

  /** What the merge leaves in member `k` before the id and href are written back. */
  lemma MergedGet(o: Order, patch: map<string, Json>, k: string)
    requires k != "id" && k != "href"
    ensures Get(Merged(o, patch), k) == Get(MergePatch(JObj(FullDump(o)), JObj(patch)).members, k)
  {
  }

  /**
   * The merge keeps the order's id and href, drops the members the patch sets to null, and
   * leaves the members it does not name as the order's full dump has them.
   */
  lemma MergedMembers(o: Order, patch: map<string, Json>, k: string)
    ensures Get(Merged(o, patch), "id") == Get(o, "id") && Get(Merged(o, patch), "href") == Get(o, "href")
    ensures k in patch && patch[k].JNull? && k != "id" && k != "href" ==> k !in Merged(o, patch)
    ensures k !in patch && k != "id" && k != "href" ==> Get(Merged(o, patch), k) == Get(FullDump(o), k)
  {
    var target := JObj(FullDump(o));
    if k in patch && patch[k].JNull? {
      NullMemberRemoves(target, patch, k);
    }
    if k !in patch {
      UnnamedMembersKept(target, patch, k);
    }
  }

  /** A member the patch sets to a plain value takes that value's dump. */
  lemma PatchSetsScalar(o: Order, patch: map<string, Json>, k: string)
    requires k in patch && k != "id" && k != "href"
    requires !patch[k].JNull? && !patch[k].JObj?
    ensures Get(StoredForm(Merged(o, patch)), k) == MemberDump(ServiceOrder, k, patch[k])
  {
    ScalarMemberReplaces(JObj(FullDump(o)), patch, k);
    MergedGet(o, patch, k);
    GetDump(ServiceOrder, Merged(o, patch), k);
  }

  /**
   * A member the patch sets to an object is stored as the dump of that object merged into
   * the member's value.
   */
  lemma PatchMergesObject(o: Order, patch: map<string, Json>, k: string)
    requires k in patch && k != "id" && k != "href" && patch[k].JObj?
    ensures Get(StoredForm(Merged(o, patch)), k) == MemberDump(ServiceOrder, k, MergePatch(Get(o, k), patch[k]))
  {
    ObjectMemberMerges(JObj(FullDump(o)), patch, k);
    MergedGet(o, patch, k);
    GetDump(ServiceOrder, Merged(o, patch), k);
    GetDump(ServiceOrder, o, k);
    var full := MemberFull(ServiceOrder, k, Get(o, k));
    MergeMembersOnly(full, patch[k]);
    MemberDumpFull(ServiceOrder, k, Get(o, k));
    MergeMemberCongruent(ServiceOrder, k, full, Get(o, k), patch[k]);
  }

  /** A member the patch sets to null is unset. */
  lemma PatchUnsetsNull(o: Order, patch: map<string, Json>, k: string)
    requires k in patch && patch[k].JNull? && k != "id" && k != "href"
    ensures k !in StoredForm(Merged(o, patch))
  {
    NullMemberRemoves(JObj(FullDump(o)), patch, k);
    MergedGet(o, patch, k);
    GetDump(ServiceOrder, Merged(o, patch), k);
    NullKept(ServiceOrder, k, JNull);
    DumpNullFree(ServiceOrder, Merged(o, patch));
  }

  /** A member the patch does not name keeps its stored value. */
  lemma PatchKeepsUnnamed(o: Order, patch: map<string, Json>, k: string)
    requires k !in patch
    ensures Get(StoredForm(Merged(o, patch)), k) == Get(StoredForm(o), k)
    ensures IsOrder(o) ==> Get(StoredForm(Merged(o, patch)), k) == Get(o, k)
  {
    GetDump(ServiceOrder, Merged(o, patch), k);
    GetDump(ServiceOrder, o, k);
    MergedKeepsUnnamed(o, patch, k);
  }

  lemma MergedKeepsUnnamed(o: Order, patch: map<string, Json>, k: string)
    requires k !in patch
    ensures MemberDump(ServiceOrder, k, Get(Merged(o, patch), k)) == MemberDump(ServiceOrder, k, Get(o, k))
  {
    if k != "id" && k != "href" {
      UnnamedMembersKept(JObj(FullDump(o)), patch, k);
      MergedGet(o, patch, k);
      GetDump(ServiceOrder, o, k);
      MemberDumpFull(ServiceOrder, k, Get(o, k));
    }
  }

  /** Each member of an order patched a second time reads as after the first patch. */
  lemma MergedAgainGet(o: Order, patch: map<string, Json>, k: string)
    ensures var once := StoredForm(Merged(o, patch));
      Get(StoredForm(Merged(once, patch)), k) == Get(once, k)
  {
    var once := StoredForm(Merged(o, patch));
    if k == "id" || k == "href" {
      StoredScalar(Merged(once, patch), k);
      StoredScalar(Merged(o, patch), k);
      StoredScalar(o, k);
    } else if k !in patch {
      PatchKeepsUnnamed(once, patch, k);
      StoredFormClean(Merged(o, patch));
    } else if patch[k].JNull? {
      PatchUnsetsNull(once, patch, k);
      PatchUnsetsNull(o, patch, k);
    } else if patch[k].JObj? {
      var z := MergePatch(Get(o, k), patch[k]);
      PatchMergesObject(once, patch, k);
      PatchMergesObject(o, patch, k);
      MemberDumpIdempotent(ServiceOrder, k, z);
      MergeMemberCongruent(ServiceOrder, k, MemberDump(ServiceOrder, k, z), z, patch[k]);
      MergePatchIdempotent(Get(o, k), patch[k]);
    } else {
      PatchSetsScalar(once, patch, k);
      PatchSetsScalar(o, patch, k);
    }
  }

  /** Merging the same patch into the stored merged order gives that order back. */
  lemma MergedAgain(o: Order, patch: map<string, Json>)
    ensures var once := StoredForm(Merged(o, patch));
      StoredForm(Merged(once, patch)) == once
  {
    var once := StoredForm(Merged(o, patch));
    forall k ensures Get(StoredForm(Merged(once, patch)), k) == Get(once, k) {
      MergedAgainGet(o, patch, k);
    }
    StoredFormClean(Merged(once, patch));
    StoredFormClean(Merged(o, patch));
    NullFreeByGet(StoredForm(Merged(once, patch)), once);
  }

  /**
   * RFC 7386 merge patches are idempotent, and so is patching an order: sending the same
   * accepted patch again leaves the order as the first one did.
   */
  lemma PatchIdempotent(o: Order, payload: map<string, Json>)
    requires Patched(o, payload).Ok?
    ensures Patched(Patched(o, payload).value, payload) == Patched(o, payload)
  {
    if payload != map[] {
      var context := Some(Str(o, "state"));
      PatchAccepted(payload, context);
      assert "state" in PATCH_NON_PATCHABLE_FIELDS;
      PatchedIsMerged(o, payload);
      var once := Patched(o, payload).value;
      PatchKeepsUnnamed(o, payload, "state");
      StoredScalar(o, "state");
      assert Str(once, "state") == Str(o, "state");
      MergedAgain(o, payload);
      ConformsDump(ServiceOrder, JObj(Merged(once, payload)));
    }
  }

  // ---------------------------------------------------------------------------------------
  // Merging under the dump

  /** The merge of an object patch reads only the members of its target. */
  lemma MergeMembersOnly(x: Json, p: Json)
    requires p.JObj?
    ensures MergePatch(JObj(Members(x)), p) == MergePatch(x, p)
  {
  }

  /**
   * Merging the same patch into two trees with the same dump gives two trees with the same
   * dump: the null members a full dump adds are invisible to the merge, as RFC 7386 treats a
   * null member like a missing one.
   */
  lemma {:induction false} MergeTreeCongruent(n: Model, x: map<string, Json>, y: map<string, Json>, pm: map<string, Json>)
    requires DumpTree(n, JObj(x)) == DumpTree(n, JObj(y))
    ensures DumpTree(n, MergePatch(JObj(x), JObj(pm))) == DumpTree(n, MergePatch(JObj(y), JObj(pm)))
    decreases JObj(pm), 1
  {
    var mx := MergePatch(JObj(x), JObj(pm)).members;
    var my := MergePatch(JObj(y), JObj(pm)).members;
    var dx := DumpTree(n, JObj(mx)).members;
    var dy := DumpTree(n, JObj(my)).members;
    forall k ensures Get(dx, k) == Get(dy, k) {
      GetDump(n, mx, k);
      GetDump(n, my, k);
      GetDump(n, x, k);
      GetDump(n, y, k);
      MergeKeyCongruent(n, x, y, pm, k);
    }
    DumpNullFree(n, mx);
    DumpNullFree(n, my);
    NullFreeByGet(dx, dy);
  }

  lemma {:induction false} MergeKeyCongruent(n: Model, x: map<string, Json>, y: map<string, Json>, pm: map<string, Json>, k: string)
    requires MemberDump(n, k, Get(x, k)) == MemberDump(n, k, Get(y, k))
    ensures MemberDump(n, k, Get(MergePatch(JObj(x), JObj(pm)).members, k))
         == MemberDump(n, k, Get(MergePatch(JObj(y), JObj(pm)).members, k))
    decreases JObj(pm), 0
  {
    if k !in pm {
      UnnamedMembersKept(JObj(x), pm, k);
      UnnamedMembersKept(JObj(y), pm, k);
    } else if pm[k].JNull? {
      NullMemberRemoves(JObj(x), pm, k);
      NullMemberRemoves(JObj(y), pm, k);
    } else if pm[k].JObj? {
      assert pm[k] in pm.Values;
      ObjectMemberMerges(JObj(x), pm, k);
      ObjectMemberMerges(JObj(y), pm, k);
      MergeMembersOnly(Get(x, k), pm[k]);
      MergeMembersOnly(Get(y, k), pm[k]);
      MergeMemberCongruent(n, k, Get(x, k), Get(y, k), pm[k]);
    } else {
      ScalarMemberReplaces(JObj(x), pm, k);
      ScalarMemberReplaces(JObj(y), pm, k);
    }
  }

  lemma {:induction false} MergeMemberCongruent(n: Model, k: string, x: Json, y: Json, p: Json)
    requires MemberDump(n, k, x) == MemberDump(n, k, y)
    ensures MemberDump(n, k, MergePatch(x, p)) == MemberDump(n, k, MergePatch(y, p))
    decreases p, 3
  {
    if k in Fields(n) {
      MergeValueCongruent(Fields(n)[k], x, y, p);
    }
  }

  lemma {:induction false} MergeValueCongruent(t: FieldType, x: Json, y: Json, p: Json)
    requires DumpValue(t, x) == DumpValue(t, y)
    ensures DumpValue(t, MergePatch(x, p)) == DumpValue(t, MergePatch(y, p))
    decreases p, 2
  {
    if p.JObj? {
      match t
      case TModel(n) =>
        if x.JObj? {
          assert y.JObj?;
          MergeTreeCongruent(n, x.members, y.members, p.members);
        } else {
          assert !y.JObj?;
        }
      case TList(n) =>
        if x.JArr? {
          assert y.JArr? && Members(x) == Members(y);
          MergeMembersOnly(x, p);
          MergeMembersOnly(y, p);
        } else {
          assert x == y;
        }
      case _ =>
    }
  }

  /** `_required_value`: the value, or a ValueError when it is missing. */
  function RequiredValue(value: Option<string>): (r: Result<string>)
    ensures r.Ok? <==> value.Some?
    ensures r.Ok? ==> r.value == value.value
    ensures r.Err? ==> r.error == ValueError
  {
    match value
    case None => Err(ValueError)
    case Some(v) => Ok(v)
  }

  // ---------------------------------------------------------------------------------------
  // The service

  /**
   * The orders in the store as the service has issued them: filed under a decimal id the
   * counter has already drawn, conforming, and with a location.
   */
  ghost predicate OrdersIssued(orders: map<string, Order>, sequence: nat) {
    forall k | k in orders ::
      && AllDigits(k) && DecimalValue(k) < sequence
      && IsOrder(orders[k]) && Str(orders[k], "href").Some?
  }

  class ServiceOrderService {
    const store: InMemoryStore
    /** The resource path with trailing slashes removed, `/serviceOrder` when nothing is left. */
    const resourcePath: string

    ghost predicate Valid()
      reads this, store
    {
      && store.Valid()
      && OrdersIssued(store.serviceOrders, store.serviceOrderSequence)
    }

    constructor(store: InMemoryStore, resourcePath: string)
      ensures this.store == store
      ensures this.resourcePath == NormalizeResourcePath(resourcePath, DEFAULT_ORDER_PATH)
      ensures this.resourcePath != "" && !EndsWith(this.resourcePath, '/')
      ensures store.Valid() && OrdersIssued(store.serviceOrders, store.serviceOrderSequence) ==> Valid()
    {
      this.store := store;
      this.resourcePath := NormalizeResourcePath(resourcePath, DEFAULT_ORDER_PATH);
    }

    /**
     * `create_service_order`, given the dump of the validated payload: the counter draws the
     * id, the built order is validated as a ServiceOrder (a failure there leaves the counter
     * advanced and nothing stored), stored under its fresh id, and projected onto the
     * selection. A selection naming an unknown field fails only after the order is stored.
     */
    method CreateServiceOrder(payloadData: map<string, Json>, fields: Option<seq<string>>, now: DateTime)
      returns (r: Result<map<string, Json>>)
      requires Valid()
      modifies store
      ensures Valid()
      ensures store.serviceOrderSequence == old(store.serviceOrderSequence) + 1
      ensures store.hubSequence == old(store.hubSequence)
      ensures store.hubListeners == old(store.hubListeners) && store.listenerKeys == old(store.listenerKeys)
      ensures var id := NatToString(old(store.serviceOrderSequence));
        var created := CreatedOrder(payloadData, id, Location(resourcePath, id), now);
        && (created.Err? ==>
              && r == Err(InvalidRequest)
              && store.serviceOrders == old(store.serviceOrders) && store.orderKeys == old(store.orderKeys))
        && (created.Ok? ==>
              && id !in old(store.serviceOrders)
              && store.serviceOrders == old(store.serviceOrders)[id := created.value]
              && store.orderKeys == old(store.orderKeys) + [id]
              && r == ProjectOrder(created.value, fields))
    {
      var created := StoreCreated(payloadData, now);
      if created.Err? {
        return Err(InvalidRequest);
      }
      r := ProjectOrder(created.value, fields);
    }

    /** The part of `create_service_order` before the projection: build, validate, store. */
    method StoreCreated(payloadData: map<string, Json>, now: DateTime) returns (created: Result<Order>)
      requires Valid()
      modifies store
      ensures Valid()
      ensures store.serviceOrderSequence == old(store.serviceOrderSequence) + 1
      ensures store.hubSequence == old(store.hubSequence)
      ensures store.hubListeners == old(store.hubListeners) && store.listenerKeys == old(store.listenerKeys)
      ensures var id := NatToString(old(store.serviceOrderSequence));
        && created == CreatedOrder(payloadData, id, Location(resourcePath, id), now)
        && (created.Err? ==> store.serviceOrders == old(store.serviceOrders) && store.orderKeys == old(store.orderKeys))
        && (created.Ok? ==>
              && id !in old(store.serviceOrders)
              && store.serviceOrders == old(store.serviceOrders)[id := created.value]
              && store.orderKeys == old(store.orderKeys) + [id])
    {
      ghost var before := store.serviceOrders;
      var id := store.NextServiceOrderId();
      created := CreatedOrder(payloadData, id, Location(resourcePath, id), now);
      if created.Err? {
        return;
      }
      FreshCounterId(before.Keys, store.serviceOrderSequence - 1);
      CreatedOrderIdentity(payloadData, id, Location(resourcePath, id), now);
      var persisted := AddIssued(id, created.value);
    }

    /** The store's `create_service_order` for an order under the id just drawn. */
    method AddIssued(id: string, order: Order) returns (persisted: Order)
      requires store.Valid() && store.serviceOrderSequence >= 1
      requires OrdersIssued(store.serviceOrders, store.serviceOrderSequence - 1)
      requires AllDigits(id) && DecimalValue(id) == store.serviceOrderSequence - 1
      requires id !in store.serviceOrders
      requires IsOrder(order) && Str(order, "id") == Some(id) && Str(order, "href").Some?
      modifies store
      ensures Valid()
      ensures persisted == order
      ensures store.serviceOrderSequence == old(store.serviceOrderSequence) && store.hubSequence == old(store.hubSequence)
      ensures store.hubListeners == old(store.hubListeners) && store.listenerKeys == old(store.listenerKeys)
      ensures store.serviceOrders == old(store.serviceOrders)[id := order]
      ensures store.orderKeys == old(store.orderKeys) + [id]
    {
      ghost var before := store.serviceOrders;
      var stored := store.CreateServiceOrder(order);
      TickKeepsIssued(before, id, order, store.serviceOrderSequence);
      persisted := stored.value;
    }

    /** `list_service_orders`: the stored orders in insertion order, filtered, then projected. */
    method ListServiceOrders(filters: map<string, string>, fields: Option<seq<string>>, parse: string -> Option<DateTime>)
      returns (r: Result<seq<map<string, Json>>>)
      requires Valid()
      ensures var listed := Filtered(ValuesInOrder(store.orderKeys, store.serviceOrders), filters, parse);
        && (listed.Err? ==> r == Err(listed.error))
        && (listed.Ok? ==> r == ProjectOrders(listed.value, fields))
    {
      var orders := store.ListServiceOrders();
      var filtered := ApplyOrderFilters(orders, filters, parse);
      if filtered.Err? {
        return Err(filtered.error);
      }
      r := ProjectOrders(filtered.value, fields);
    }

    /** `get_service_order`: NotFound for an unknown id, otherwise the order projected. */
    method GetServiceOrder(serviceOrderId: string, fields: Option<seq<string>>) returns (r: Result<map<string, Json>>)
      requires Valid()
      ensures serviceOrderId !in store.serviceOrders ==> r == Err(NotFound)
      ensures serviceOrderId in store.serviceOrders ==> r == ProjectOrder(store.serviceOrders[serviceOrderId], fields)
    {
      var order := store.GetServiceOrder(serviceOrderId);
      if order.None? {
        return Err(NotFound);
      }
      r := ProjectOrder(order.value, fields);
    }

    /**
     * `patch_service_order`: NotFound for an unknown id; otherwise the order becomes its
     * patched form (an empty patch writes nothing), and the answer is its id and location,
     * which a patch never changes.
     */
    method PatchServiceOrder(serviceOrderId: string, payload: map<string, Json>) returns (r: Result<OrderRef>)
      requires Valid()
      modifies store
      ensures Valid()
      ensures store.serviceOrderSequence == old(store.serviceOrderSequence) && store.hubSequence == old(store.hubSequence)
      ensures store.hubListeners == old(store.hubListeners) && store.listenerKeys == old(store.listenerKeys)
      ensures store.orderKeys == old(store.orderKeys)
      ensures serviceOrderId !in old(store.serviceOrders) ==>
        r == Err(NotFound) && store.serviceOrders == old(store.serviceOrders)
      ensures serviceOrderId in old(store.serviceOrders) ==>
        var o := old(store.serviceOrders)[serviceOrderId];
        var p := Patched(o, payload);
        && (p.Err? ==> r == Err(InvalidRequest) && store.serviceOrders == old(store.serviceOrders))
        && (p.Ok? ==>
              && r == Ok(OrderRef(serviceOrderId, Str(o, "href").value))
              && store.serviceOrders == old(store.serviceOrders)[serviceOrderId := p.value])
    {
      var order := store.GetServiceOrder(serviceOrderId);
      if order.None? {
        return Err(NotFound);
      }
      var o := order.value;
      PatchedSteps(o, payload);
      var patch := ValidatePatch(payload, Some(Str(o, "state")));
      if patch.Err? {
        return Err(InvalidRequest);
      }
      if patch.value != map[] {
        var updated := Revalidate(Merged(o, patch.value));
        if updated.Err? {
          return Err(InvalidRequest);
        }
        PatchedIsOrder(o, payload);
        o := ReplaceIssued(serviceOrderId, updated.value);
      }
      var id := RequiredValue(Str(o, "id"));
      var href := RequiredValue(Str(o, "href"));
      r := Ok(OrderRef(id.value, href.value));
    }

    /** The store's `update_service_order` for an order that keeps its stored id and an href. */
    method ReplaceIssued(id: string, order: Order) returns (persisted: Order)
      requires Valid() && id in store.serviceOrders
      requires IsOrder(order) && Str(order, "id") == Some(id) && Str(order, "href").Some?
      modifies store
      ensures Valid()
      ensures persisted == order
      ensures store.serviceOrderSequence == old(store.serviceOrderSequence) && store.hubSequence == old(store.hubSequence)
      ensures store.hubListeners == old(store.hubListeners) && store.listenerKeys == old(store.listenerKeys)
      ensures store.orderKeys == old(store.orderKeys)
      ensures store.serviceOrders == old(store.serviceOrders)[id := order]
    {
      ghost var before := store.serviceOrders;
      var stored := store.UpdateServiceOrder(order);
      ReplaceKeepsIssued(before, id, order, store.serviceOrderSequence);
      persisted := stored.value;
    }

    /** `delete_service_order`: NotFound for an unknown id; otherwise the order is removed. */
    method DeleteServiceOrder(serviceOrderId: string) returns (r: Outcome)
      requires Valid()
      modifies store
      ensures Valid()
      ensures r.Fail? <==> serviceOrderId !in old(store.serviceOrders)
      ensures r.Fail? ==> r.error == NotFound
      ensures store.serviceOrders == old(store.serviceOrders) - {serviceOrderId}
      ensures store.orderKeys == Remove(old(store.orderKeys), serviceOrderId)
      ensures store.serviceOrderSequence == old(store.serviceOrderSequence) && store.hubSequence == old(store.hubSequence)
      ensures store.hubListeners == old(store.hubListeners) && store.listenerKeys == old(store.listenerKeys)
    {
      var deleted := store.DeleteServiceOrder(serviceOrderId);
      if !deleted {
        return Fail(NotFound);
      }
      r := Pass;
    }
  }

  /** Adding an order under the id just drawn keeps the store as issued. */
  lemma TickKeepsIssued(orders: map<string, Order>, id: string, o: Order, sequence: nat)
    requires sequence >= 1 && OrdersIssued(orders, sequence - 1)
    requires AllDigits(id) && DecimalValue(id) == sequence - 1
    requires IsOrder(o) && Str(o, "href").Some?
    ensures OrdersIssued(orders[id := o], sequence)
  {
  }

  /** Replacing a stored order by a conforming one with a location keeps the store as issued. */
  lemma ReplaceKeepsIssued(orders: map<string, Order>, id: string, o: Order, sequence: nat)
    requires OrdersIssued(orders, sequence) && id in orders
    requires IsOrder(o) && Str(o, "href").Some?
    ensures OrdersIssued(orders[id := o], sequence)
  {
  }
}
