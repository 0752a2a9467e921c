/**
 * The payload policy of ServiceOrder create and patch: the before-validators that refuse
 * server-managed and non-patchable keys, field validation against the schema tables, and
 * the after-validators' element rules. Every refusal the validators raise as ValueError is
 * reported as InvalidRequest.
 */
module Policy {
  import opened Wrappers
  import opened Text
  import opened JsonValue
  import opened Schema

  const CREATE_SERVER_MANAGED_FIELDS: set<string> := {
    "id", "href", "state", "orderDate", "completionDate", "expectedCompletionDate", "startDate"
  }
  const PATCH_NON_PATCHABLE_FIELDS: set<string> := {
    "id", "href", "externalId", "priority", "state", "orderDate", "completionDate"
  }
  const PATCH_NON_PATCHABLE_ORDER_ITEM_FIELDS: set<string> := {"id", "action", "state"}

  /** The fields a patch may set only while the order is acknowledged. */
  const CONDITIONAL_FIELDS: set<string> := {
    "relatedParty", "requestedCompletionDate", "requestedStartDate", "orderItem"
  }

  // ---------------------------------------------------------------------------------------
  // `_is_non_empty` and `_has_reference`

  /** `_is_non_empty`: a value that is present and not all whitespace. */
  function IsNonEmpty(v: Option<string>): (b: bool)
    ensures b <==> v.Some? && !AllSpace(v.value)
  {
    match v
    case None => false
    case Some(s) =>
      StripEmptyIffBlank(s);
      Strip(s) != ""
  }

  /** `_has_reference`: some value is non-empty. */
  function HasReference(vs: seq<Option<string>>): (b: bool)
    ensures b <==> exists i :: 0 <= i < |vs| && IsNonEmpty(vs[i])
  {
    if vs == [] then false
    else if IsNonEmpty(vs[0]) then true
    else
      var b := HasReference(vs[1..]);
      assert b ==> exists i :: 0 <= i < |vs| && IsNonEmpty(vs[i]) by {
        if b {
          var i :| 0 <= i < |vs[1..]| && IsNonEmpty(vs[1..][i]);
          assert IsNonEmpty(vs[i + 1]);
        }
      }
      assert (exists i :: 0 <= i < |vs| && IsNonEmpty(vs[i])) ==> b by {
        if exists i :: 0 <= i < |vs| && IsNonEmpty(vs[i]) {
          var i :| 0 <= i < |vs| && IsNonEmpty(vs[i]);
          assert i > 0 && vs[1..][i - 1] == vs[i];
        }
      }
      b
  }

  lemma HasReferenceOfTwo(a: Option<string>, b: Option<string>)
    ensures HasReference([a, b]) <==> IsNonEmpty(a) || IsNonEmpty(b)
  {
    assert [a, b][1..] == [b];
  }

  lemma HasReferenceOfThree(a: Option<string>, b: Option<string>, c: Option<string>)
    ensures HasReference([a, b, c]) <==> IsNonEmpty(a) || IsNonEmpty(b) || IsNonEmpty(c)
  {
    assert [a, b, c][1..] == [b, c];
    HasReferenceOfTwo(b, c);
  }

  // ---------------------------------------------------------------------------------------
  // Accessors on a validated member map

  /** The field is set: present and not None. */
  predicate Present(m: map<string, Json>, k: string) {
    k in m && !m[k].JNull?
  }

  /** The members of nested model `k`, and none when it is unset. */
  function Sub(m: map<string, Json>, k: string): map<string, Json> {
    Members(Get(m, k))
  }

  /** The id and href of the nested reference `k`, the operands of `_has_reference`. */
  function RefOf(m: map<string, Json>, k: string): seq<Option<string>> {
    [Str(Sub(m, k), "id"), Str(Sub(m, k), "href")]
  }

  /** Every element of a collection (`value or []`) satisfies `ok`. */
  predicate AllOk(xs: seq<Json>, ok: map<string, Json> -> bool) {
    forall i | 0 <= i < |xs| :: ok(Members(xs[i]))
  }

  // ---------------------------------------------------------------------------------------
  // Element rules of the after-validators

  /** Member `k` is a string with a character that is not whitespace. */
  predicate Filled(m: map<string, Json>, k: string) {
    k in m && m[k].JStr? && !AllSpace(m[k].s)
  }

  /** A related party has a role, and an id, href or name. */
  predicate RelatedPartyOk(p: map<string, Json>): (ok: bool)
    ensures ok <==> Filled(p, "role") && (Filled(p, "id") || Filled(p, "href") || Filled(p, "name"))
  {
    HasReferenceOfThree(Str(p, "id"), Str(p, "href"), Str(p, "name"));
    IsNonEmpty(Str(p, "role")) && HasReference([Str(p, "id"), Str(p, "href"), Str(p, "name")])
  }

  /** A note has a date, an author and a text. */
  predicate NoteOk(n: map<string, Json>): (ok: bool)
    ensures ok <==> "date" in n && !n["date"].JNull? && Filled(n, "author") && Filled(n, "text")
  {
    Present(n, "date") && IsNonEmpty(Str(n, "author")) && IsNonEmpty(Str(n, "text"))
  }

  /** An order relationship has a type, and an id or href. */
  predicate OrderRelationshipOk(r: map<string, Json>): (ok: bool)
    ensures ok <==> Filled(r, "relationshipType") && (Filled(r, "id") || Filled(r, "href"))
  {
    HasReferenceOfTwo(Str(r, "id"), Str(r, "href"));
    IsNonEmpty(Str(r, "relationshipType")) && HasReference([Str(r, "id"), Str(r, "href")])
  }

  /** A place has a role, and an id or href. */
  predicate PlaceOk(p: map<string, Json>): (ok: bool)
    ensures ok <==> Filled(p, "role") && (Filled(p, "id") || Filled(p, "href"))
  {
    HasReferenceOfTwo(Str(p, "id"), Str(p, "href"));
    IsNonEmpty(Str(p, "role")) && HasReference([Str(p, "id"), Str(p, "href")])
  }

  /** A service relationship has a type, and a service with an id or href. */
  predicate ServiceRelationshipOk(r: map<string, Json>): (ok: bool)
    ensures ok <==>
      && Filled(r, "relationshipType") && "service" in r && !r["service"].JNull?
      && (Filled(Sub(r, "service"), "id") || Filled(Sub(r, "service"), "href"))
  {
    HasReferenceOfTwo(Str(Sub(r, "service"), "id"), Str(Sub(r, "service"), "href"));
    IsNonEmpty(Str(r, "relationshipType")) && Present(r, "service") && HasReference(RefOf(r, "service"))
  }

  /** A characteristic has a name, a value type and a value. */
  predicate CharacteristicOk(c: map<string, Json>): (ok: bool)
    ensures ok <==> Filled(c, "name") && Filled(c, "valueType") && "value" in c && !c["value"].JNull?
  {
    IsNonEmpty(Str(c, "name")) && IsNonEmpty(Str(c, "valueType")) && Present(c, "value")
  }

  /** An order item relationship has a type and an id. */
  predicate ItemRelationshipOk(r: map<string, Json>): (ok: bool)
    ensures ok <==> Filled(r, "relationshipType") && Filled(r, "id")
  {
    IsNonEmpty(Str(r, "relationshipType")) && IsNonEmpty(Str(r, "id"))
  }

  /** `_validate_service_restriction`. */
  predicate ServiceRestrictionOk(s: map<string, Json>) {
    && AllOk(Items(s, "place"), PlaceOk)
    && (Present(s, "serviceSpecification") ==> HasReference(RefOf(s, "serviceSpecification")))
    && AllOk(Items(s, "serviceRelationship"), ServiceRelationshipOk)
    && AllOk(Items(s, "serviceCharacteristic"), CharacteristicOk)
  }

  predicate AppointmentOk(item: map<string, Json>) {
    Present(item, "appointment") ==> HasReference(RefOf(item, "appointment"))
  }

  /** `ServiceOrderItemCreate.validate_create_rules`. */
  predicate ItemCreateOk(item: map<string, Json>) {
    && (Str(item, "action") != Some("add") ==> HasReference(RefOf(item, "service")))
    && AppointmentOk(item)
    && AllOk(Items(item, "orderItemRelationship"), ItemRelationshipOk)
    && AllOk(Items(item, "relatedParty"), RelatedPartyOk)
    && ServiceRestrictionOk(Sub(item, "service"))
  }

  /** `ServiceOrderItemPatch.validate_patch_rules`. */
  predicate ItemPatchOk(item: map<string, Json>) {
    && AppointmentOk(item)
    && AllOk(Items(item, "orderItemRelationship"), ItemRelationshipOk)
    && AllOk(Items(item, "relatedParty"), RelatedPartyOk)
    && (Present(item, "service") ==> ServiceRestrictionOk(Sub(item, "service")))
  }

  /** `validate_create_collections` and `validate_patch_collections`. */
  predicate CollectionsOk(o: map<string, Json>) {
    && AllOk(Items(o, "relatedParty"), RelatedPartyOk)
    && AllOk(Items(o, "note"), NoteOk)
    && AllOk(Items(o, "orderRelationship"), OrderRelationshipOk)
  }

  // ---------------------------------------------------------------------------------------
  // The orderItem key scan of the before-validators

  /** Some order item object carries one of the `forbidden` keys. */
  predicate SomeItemHasKey(raw: map<string, Json>, forbidden: set<string>) {
    exists i | 0 <= i < |Items(raw, "orderItem")| ::
      Items(raw, "orderItem")[i].JObj? && forbidden * Items(raw, "orderItem")[i].members.Keys != {}
  }

  /**
   * The loop over `data.get("orderItem", [])` as written: a list is scanned for objects
   * carrying a forbidden key; a string or an object is iterable (its characters or keys,
   * none of them an object) and passes; any other value, `null` included, is not iterable
   * and `enumerate` raises TypeError, which pydantic does not turn into a validation error.
   */
  function ItemKeysCheckAsWritten(raw: map<string, Json>, forbidden: set<string>): (r: Outcome)
    ensures r == Fail(TypeError) <==>
      "orderItem" in raw && !(raw["orderItem"].JArr? || raw["orderItem"].JStr? || raw["orderItem"].JObj?)
    ensures r == Fail(InvalidRequest) ==> SomeItemHasKey(raw, forbidden)
  {
    var v := if "orderItem" in raw then raw["orderItem"] else JArr([]);
    match v
    case JArr(_) => if SomeItemHasKey(raw, forbidden) then Fail(InvalidRequest) else Pass
    case JStr(_) => Pass
    case JObj(_) => Pass
    case _ => Fail(TypeError)
  }

  /** A patch or create payload with `"orderItem": null` crashes the as-written scan. */
  lemma NullOrderItemRaisesTypeError(raw: map<string, Json>)
    requires "orderItem" in raw && raw["orderItem"].JNull?
    ensures ItemKeysCheckAsWritten(raw, {"state"}) == Fail(TypeError)
    ensures ItemKeysCheckAsWritten(raw, PATCH_NON_PATCHABLE_ORDER_ITEM_FIELDS) == Fail(TypeError)
    ensures ItemKeysCheck(raw, {"state"}) == Pass
    ensures ItemKeysCheck(raw, PATCH_NON_PATCHABLE_ORDER_ITEM_FIELDS) == Pass
  {
  }

  /**
   * The scan as evidently intended (the collection helpers read `value or []`): only a list
   * is scanned, and whatever else orderItem holds is left to field validation.
   */
  function ItemKeysCheck(raw: map<string, Json>, forbidden: set<string>): (r: Outcome)
    ensures r.Fail? <==> SomeItemHasKey(raw, forbidden)
    ensures r.Fail? ==> r.error == InvalidRequest
  {
    if SomeItemHasKey(raw, forbidden) then Fail(InvalidRequest) else Pass
  }

  /** The corrected scan agrees with the as-written one wherever the latter does not crash. */
  lemma ItemKeysCheckAgrees(raw: map<string, Json>, forbidden: set<string>)
    requires ItemKeysCheckAsWritten(raw, forbidden) != Fail(TypeError)
    ensures ItemKeysCheck(raw, forbidden) == ItemKeysCheckAsWritten(raw, forbidden)
  {
  }

  /** Some member of `raw` is named in `names`. */
  lemma NamesSomeKey(raw: map<string, Json>, names: set<string>)
    ensures names * raw.Keys != {} <==> exists k | k in raw :: k in names
  {
    if names * raw.Keys != {} {
      var k :| k in names * raw.Keys;
      assert k in raw && k in names;
    }
    if exists k | k in raw :: k in names {
      var k :| k in raw && k in names;
      assert k in names * raw.Keys;
    }
  }

  // ---------------------------------------------------------------------------------------
  // ServiceOrderCreate

  /** `ServiceOrderCreate.validate_server_managed_fields`. */
  function BeforeCreate(raw: map<string, Json>): Outcome {
    if CREATE_SERVER_MANAGED_FIELDS * raw.Keys != {} then Fail(InvalidRequest)
    else ItemKeysCheck(raw, {"state"})
  }

  /**
   * The create before-validator refuses, always as an invalid request, exactly the payloads
   * that name a server-managed field or whose order item object carries `state`.
   */
  lemma BeforeCreateRefuses(raw: map<string, Json>)
    ensures BeforeCreate(raw).Fail? <==>
      (exists k | k in raw :: k in CREATE_SERVER_MANAGED_FIELDS) || SomeItemHasKey(raw, {"state"})
    ensures BeforeCreate(raw).Fail? ==> BeforeCreate(raw).error == InvalidRequest
  {
    NamesSomeKey(raw, CREATE_SERVER_MANAGED_FIELDS);
  }

  /**
   * `model_dump(exclude_none=True)` of a validated create payload: its members without the
   * null ones at every declared depth, with priority "4" when the payload does not name
   * priority at all.
   */
  function CreateDump(raw: map<string, Json>): map<string, Json> {
    var d := DumpTree(ServiceOrderCreate, JObj(raw)).members;
    if "priority" in raw then d else d["priority" := JStr("4")]
  }

  /** `ServiceOrderCreate.model_validate(raw)`, returning the payload's dump. */
  function ValidateCreate(raw: map<string, Json>): (r: Result<map<string, Json>>)
    ensures r.Ok? ==> r.value == CreateDump(raw)
    ensures r.Err? ==> r.error == InvalidRequest
  {
    match BeforeCreate(raw)
    case Fail(e) => Err(e)
    case Pass =>
      if Conforms(ServiceOrderCreate, JObj(raw))
         && CollectionsOk(raw)
         && AllOk(Items(raw, "orderItem"), ItemCreateOk)
      then Ok(CreateDump(raw))
      else Err(InvalidRequest)
  }

  /** A create payload naming a server-managed field is refused, null or not. */
  lemma CreateRejectsServerManaged(raw: map<string, Json>, k: string)
    requires k in raw && k in CREATE_SERVER_MANAGED_FIELDS
    ensures ValidateCreate(raw) == Err(InvalidRequest)
  {
    assert k in CREATE_SERVER_MANAGED_FIELDS * raw.Keys;
  }

  /** A create payload whose order item object carries `state` is refused. */
  lemma CreateRejectsItemState(raw: map<string, Json>, i: nat)
    requires "orderItem" in raw && raw["orderItem"].JArr?
    requires i < |raw["orderItem"].items|
    requires raw["orderItem"].items[i].JObj? && "state" in raw["orderItem"].items[i].members
    ensures ValidateCreate(raw) == Err(InvalidRequest)
  {
    assert "state" in {"state"} * Items(raw, "orderItem")[i].members.Keys;
  }

  /**
   * An accepted create payload has at least one order item, and each is an object with an
   * action from ServiceOrderActionType, a string id, a service object and no state.
   */
  lemma CreateNeedsItems(raw: map<string, Json>)
    requires ValidateCreate(raw).Ok?
    ensures "orderItem" in raw && raw["orderItem"].JArr? && |raw["orderItem"].items| >= 1
    ensures forall i | 0 <= i < |raw["orderItem"].items| ::
      var item := raw["orderItem"].items[i];
      && item.JObj?
      && "action" in item.members && item.members["action"].JStr?
      && item.members["action"].s in ACTIONS
      && "id" in item.members && item.members["id"].JStr?
      && "service" in item.members && item.members["service"].JObj?
      && "state" !in item.members
  {
    assert BeforeCreate(raw) == Pass;
    assert Conforms(ServiceOrderCreate, JObj(raw));
    CreateFieldFacts();
    assert raw["orderItem"] in raw.Values;
    assert FieldConforms(TList(ServiceOrderItemCreate), raw["orderItem"], 1);
    var items := raw["orderItem"].items;
    forall i | 0 <= i < |items|
      ensures var item := items[i];
        && item.JObj?
        && "action" in item.members && item.members["action"].JStr?
        && item.members["action"].s in ACTIONS
        && "id" in item.members && item.members["id"].JStr?
        && "service" in item.members && item.members["service"].JObj?
        && "state" !in item.members
    {
      CreateItemShape(items[i]);
      assert "state" !in {"state"} * Items(raw, "orderItem")[i].members.Keys;
    }
  }

  lemma CreateItemShape(item: Json)
    requires Conforms(ServiceOrderItemCreate, item)
    ensures item.JObj?
    ensures "action" in item.members && item.members["action"].JStr? && item.members["action"].s in ACTIONS
    ensures "id" in item.members && item.members["id"].JStr?
    ensures "service" in item.members && item.members["service"].JObj?
  {
    var m := item.members;
    ItemCreateFieldFacts();
    assert m["action"] in m.Values && m["id"] in m.Values && m["service"] in m.Values;
    assert FieldConforms(TEnum(ACTIONS), m["action"], 0);
    assert FieldConforms(TStr, m["id"], 0);
    assert FieldConforms(TModel(ServiceRestriction), m["service"], 0);
  }

  /**
   * The item rules of an accepted create payload: an item whose action is not `add` names
   * its service by a non-blank id or href, a present appointment has a non-blank id or href,
   * and every orderItemRelationship has a non-blank type and id.
   */
  lemma CreateItemRules(raw: map<string, Json>, i: nat)
    requires ValidateCreate(raw).Ok?
    requires "orderItem" in raw && raw["orderItem"].JArr? && i < |raw["orderItem"].items|
    ensures var item := Members(raw["orderItem"].items[i]);
      && (Str(item, "action") != Some("add") ==>
            exists r :: r in RefOf(item, "service") && r.Some? && !AllSpace(r.value))
      && (Present(item, "appointment") ==>
            exists r :: r in RefOf(item, "appointment") && r.Some? && !AllSpace(r.value))
      && forall j | 0 <= j < |Items(item, "orderItemRelationship")| ::
           var rel := Members(Items(item, "orderItemRelationship")[j]);
           !Blank(Str(rel, "relationshipType")) && !Blank(Str(rel, "id"))
  {
    var item := Members(raw["orderItem"].items[i]);
    assert ItemCreateOk(item);
    if Str(item, "action") != Some("add") {
      var k :| 0 <= k < 2 && IsNonEmpty(RefOf(item, "service")[k]);
      assert RefOf(item, "service")[k] in RefOf(item, "service");
    }
    if Present(item, "appointment") {
      var k :| 0 <= k < 2 && IsNonEmpty(RefOf(item, "appointment")[k]);
      assert RefOf(item, "appointment")[k] in RefOf(item, "appointment");
    }
  }

  /** A value that is unset or all whitespace: what `_is_non_empty` refuses. */
  predicate Blank(v: Option<string>) {
    v.None? || AllSpace(v.value)
  }

  /** Some value among `vs` is neither unset nor blank: what `_has_reference` accepts. */
  predicate SomeNonBlank(vs: seq<Option<string>>) {
    exists i :: 0 <= i < |vs| && !Blank(vs[i])
  }

  lemma HasReferenceIsSomeNonBlank(vs: seq<Option<string>>)
    ensures HasReference(vs) <==> SomeNonBlank(vs)
  {
    if HasReference(vs) {
      var i :| 0 <= i < |vs| && IsNonEmpty(vs[i]);
      assert !Blank(vs[i]);
    }
    if SomeNonBlank(vs) {
      var i :| 0 <= i < |vs| && !Blank(vs[i]);
      assert IsNonEmpty(vs[i]);
    }
  }

  /**
   * The collection rules of an accepted create or patch: every related party has a
   * non-blank role and one of id, href, name; every note a date, an author and a text;
   * every order relationship a non-blank type and one of id, href.
   */
  lemma CollectionRules(o: map<string, Json>)
    requires CollectionsOk(o)
    ensures forall i | 0 <= i < |Items(o, "relatedParty")| ::
      var p := Members(Items(o, "relatedParty")[i]);
      !Blank(Str(p, "role")) && SomeNonBlank([Str(p, "id"), Str(p, "href"), Str(p, "name")])
    ensures forall i | 0 <= i < |Items(o, "note")| ::
      var n := Members(Items(o, "note")[i]);
      Present(n, "date") && !Blank(Str(n, "author")) && !Blank(Str(n, "text"))
    ensures forall i | 0 <= i < |Items(o, "orderRelationship")| ::
      var r := Members(Items(o, "orderRelationship")[i]);
      !Blank(Str(r, "relationshipType")) && SomeNonBlank([Str(r, "id"), Str(r, "href")])
  {
    forall i | 0 <= i < |Items(o, "relatedParty")|
      ensures var p := Members(Items(o, "relatedParty")[i]);
        SomeNonBlank([Str(p, "id"), Str(p, "href"), Str(p, "name")])
    {
      var p := Members(Items(o, "relatedParty")[i]);
      assert RelatedPartyOk(p);
      HasReferenceIsSomeNonBlank([Str(p, "id"), Str(p, "href"), Str(p, "name")]);
    }
    forall i | 0 <= i < |Items(o, "orderRelationship")|
      ensures var r := Members(Items(o, "orderRelationship")[i]);
        SomeNonBlank([Str(r, "id"), Str(r, "href")])
    {
      var r := Members(Items(o, "orderRelationship")[i]);
      assert OrderRelationshipOk(r);
      HasReferenceIsSomeNonBlank([Str(r, "id"), Str(r, "href")]);
    }
  }

  /**
   * The service restriction rules: every place has a non-blank role and one of id, href; a
   * present specification has one of id, href; every service relationship has a non-blank
   * type and a service with one of id, href; every characteristic has a non-blank name and
   * valueType and a value.
   */
  lemma ServiceRestrictionRules(s: map<string, Json>)
    requires ServiceRestrictionOk(s)
    ensures forall i | 0 <= i < |Items(s, "place")| ::
      var p := Members(Items(s, "place")[i]);
      !Blank(Str(p, "role")) && SomeNonBlank([Str(p, "id"), Str(p, "href")])
    ensures Present(s, "serviceSpecification") ==> SomeNonBlank(RefOf(s, "serviceSpecification"))
    ensures forall i | 0 <= i < |Items(s, "serviceRelationship")| ::
      var r := Members(Items(s, "serviceRelationship")[i]);
      !Blank(Str(r, "relationshipType")) && Present(r, "service") && SomeNonBlank(RefOf(r, "service"))
    ensures forall i | 0 <= i < |Items(s, "serviceCharacteristic")| ::
      var c := Members(Items(s, "serviceCharacteristic")[i]);
      !Blank(Str(c, "name")) && !Blank(Str(c, "valueType")) && Present(c, "value")
  {
    forall i | 0 <= i < |Items(s, "place")|
      ensures var p := Members(Items(s, "place")[i]); SomeNonBlank([Str(p, "id"), Str(p, "href")])
    {
      var p := Members(Items(s, "place")[i]);
      assert PlaceOk(p);
      HasReferenceIsSomeNonBlank([Str(p, "id"), Str(p, "href")]);
    }
    HasReferenceIsSomeNonBlank(RefOf(s, "serviceSpecification"));
    forall i | 0 <= i < |Items(s, "serviceRelationship")|
      ensures var r := Members(Items(s, "serviceRelationship")[i]); SomeNonBlank(RefOf(r, "service"))
    {
      var r := Members(Items(s, "serviceRelationship")[i]);
      assert ServiceRelationshipOk(r);
      HasReferenceIsSomeNonBlank(RefOf(r, "service"));
    }
  }

  /** Every order item of an accepted create payload keeps the service restriction rules. */
  lemma CreateServiceRules(raw: map<string, Json>, i: nat)
    requires ValidateCreate(raw).Ok?
    requires "orderItem" in raw && raw["orderItem"].JArr? && i < |raw["orderItem"].items|
    ensures ServiceRestrictionOk(Sub(Members(raw["orderItem"].items[i]), "service"))
  {
    assert ItemCreateOk(Members(Items(raw, "orderItem")[i]));
  }

  /**
   * Each member of the create dump is the member's own dump, or "4" for a priority the
   * payload does not name.
   */
  lemma CreateDumpGet(raw: map<string, Json>, k: string)
    ensures Get(CreateDump(raw), k) ==
      if k == "priority" && "priority" !in raw then JStr("4")
      else MemberDump(ServiceOrderCreate, k, Get(raw, k))
  {
    GetDump(ServiceOrderCreate, raw, k);
  }

  /** A plain member other than priority reads the same in the create dump as in the payload. */
  lemma CreateDumpScalarGet(raw: map<string, Json>, k: string)
    requires k !in ORDER_NESTED_FIELDS
    ensures Get(CreateDump(raw), k) == if k == "priority" && "priority" !in raw then JStr("4") else Get(raw, k)
  {
    CreateDumpGet(raw, k);
    CreateScalarMember(k, Get(raw, k));
  }

  /**
   * What the create dump holds for the members the service defaults: the priority and
   * `@type` the payload sets, and the requested completion date in place of the expected one
   * the payload cannot name.
   */
  lemma CreateDumpDefaults(raw: map<string, Json>)
    requires "expectedCompletionDate" !in raw
    ensures var d := CreateDump(raw);
      && (if "priority" in d then d["priority"] else JStr("4"))
         == (if Present(raw, "priority") then raw["priority"] else JStr("4"))
      && (if "@type" in d then d["@type"] else JStr("ServiceOrder"))
         == (if Present(raw, "@type") then raw["@type"] else JStr("ServiceOrder"))
      && (if "expectedCompletionDate" in d then d["expectedCompletionDate"] else Get(d, "requestedCompletionDate"))
         == Get(raw, "requestedCompletionDate")
  {
    DumpNullFree(ServiceOrderCreate, raw);
    CreateDumpScalarGet(raw, "priority");
    CreateDumpScalarGet(raw, "@type");
    CreateDumpScalarGet(raw, "expectedCompletionDate");
    CreateDumpScalarGet(raw, "requestedCompletionDate");
  }

  /**
   * The create dump holds no null member at any declared depth, names nothing the payload
   * does not name besides priority, and keeps every plain non-null member as it is.
   */
  lemma CreateDumpMembers(raw: map<string, Json>)
    ensures NullFree(CreateDump(raw))
    ensures DumpTree(ServiceOrderCreate, JObj(CreateDump(raw))) == JObj(CreateDump(raw))
    ensures CreateDump(raw).Keys <= raw.Keys + {"priority"}
    ensures forall k | k in raw && !raw[k].JNull? && k !in ORDER_NESTED_FIELDS ::
      k in CreateDump(raw) && CreateDump(raw)[k] == raw[k]
    ensures "priority" !in raw ==> CreateDump(raw)["priority"] == JStr("4")
    ensures "priority" in raw ==> ("priority" in CreateDump(raw) <==> !raw["priority"].JNull?)
  {
    var c := CreateDump(raw);
    DumpNullFree(ServiceOrderCreate, raw);
    forall k | k in raw && !raw[k].JNull? && k !in ORDER_NESTED_FIELDS ensures k in c && c[k] == raw[k] {
      CreateScalarMember(k, raw[k]);
    }
    var again := DumpTree(ServiceOrderCreate, JObj(c)).members;
    forall k ensures Get(again, k) == Get(c, k) {
      GetDump(ServiceOrderCreate, c, k);
      CreateDumpGet(raw, k);
      if k == "priority" && "priority" !in raw {
        CreateScalarMember(k, JStr("4"));
      } else {
        MemberDumpIdempotent(ServiceOrderCreate, k, Get(raw, k));
      }
    }
    DumpNullFree(ServiceOrderCreate, c);
    NullFreeByGet(again, c);
  }

  // ---------------------------------------------------------------------------------------
  // ServiceOrderPatch

  /** `ServiceOrderPatch.validate_patchable_fields`. */
  function BeforePatch(raw: map<string, Json>): Outcome {
    if PATCH_NON_PATCHABLE_FIELDS * raw.Keys != {} then Fail(InvalidRequest)
    else ItemKeysCheck(raw, PATCH_NON_PATCHABLE_ORDER_ITEM_FIELDS)
  }

  /**
   * The patch before-validator refuses, always as an invalid request, exactly the payloads
   * that name a non-patchable field or whose order item object carries `id`, `action` or
   * `state`.
   */
  lemma BeforePatchRefuses(raw: map<string, Json>)
    ensures BeforePatch(raw).Fail? <==>
      (exists k | k in raw :: k in PATCH_NON_PATCHABLE_FIELDS) || SomeItemHasKey(raw, PATCH_NON_PATCHABLE_ORDER_ITEM_FIELDS)
    ensures BeforePatch(raw).Fail? ==> BeforePatch(raw).error == InvalidRequest
  {
    NamesSomeKey(raw, PATCH_NON_PATCHABLE_FIELDS);
  }

  /**
   * `validate_state_based_patch_rules` under the validation context: None when there is no
   * context, Some(None) when the order has no state, Some(Some(s)) for state `s` (compared
   * after stripping).
   */
  function StateRule(raw: map<string, Json>, context: Option<Option<string>>): (r: Outcome)
    ensures r.Fail? <==>
      && context.Some? && context.value.Some?
      && Strip(context.value.value) != ACKNOWLEDGED
      && exists k | k in CONDITIONAL_FIELDS :: Present(raw, k)
    ensures r.Fail? ==> r.error == InvalidRequest
  {
    match context
    case None => Pass
    case Some(None) => Pass
    case Some(Some(state)) =>
      if Strip(state) != ACKNOWLEDGED && exists k | k in CONDITIONAL_FIELDS :: Present(raw, k)
      then Fail(InvalidRequest)
      else Pass
  }

  /**
   * `ServiceOrderPatch.model_validate(raw, context)`, returning the `exclude_unset` dump,
   * which is the payload itself: every member it names, explicit nulls included.
   */
  function ValidatePatch(raw: map<string, Json>, context: Option<Option<string>>): (r: Result<map<string, Json>>)
    ensures r.Ok? ==> r.value == raw
    ensures r.Err? ==> r.error == InvalidRequest
  {
    match BeforePatch(raw)
    case Fail(e) => Err(e)
    case Pass =>
      if Conforms(ServiceOrderPatch, JObj(raw))
         && CollectionsOk(raw)
         && AllOk(Items(raw, "orderItem"), ItemPatchOk)
      then
        match StateRule(raw, context)
        case Fail(e) => Err(e)
        case Pass => Ok(raw)
      else Err(InvalidRequest)
  }

  /** A patch naming a non-patchable field is refused, whatever its value and the state. */
  lemma PatchRejectsNonPatchable(raw: map<string, Json>, k: string, context: Option<Option<string>>)
    requires k in raw && k in PATCH_NON_PATCHABLE_FIELDS
    ensures ValidatePatch(raw, context) == Err(InvalidRequest)
  {
    assert k in PATCH_NON_PATCHABLE_FIELDS * raw.Keys;
  }

  /** A patch whose order item object carries id, action or state is refused. */
  lemma PatchRejectsItemKeys(raw: map<string, Json>, i: nat, k: string, context: Option<Option<string>>)
    requires "orderItem" in raw && raw["orderItem"].JArr?
    requires i < |raw["orderItem"].items|
    requires raw["orderItem"].items[i].JObj? && k in raw["orderItem"].items[i].members
    requires k in PATCH_NON_PATCHABLE_ORDER_ITEM_FIELDS
    ensures ValidatePatch(raw, context) == Err(InvalidRequest)
  {
    assert k in PATCH_NON_PATCHABLE_ORDER_ITEM_FIELDS * Items(raw, "orderItem")[i].members.Keys;
  }

  /**
   * Outside the acknowledged state a patch that sets relatedParty, requestedCompletionDate,
   * requestedStartDate or orderItem is refused.
   */
  lemma PatchRejectsConditional(raw: map<string, Json>, state: string, k: string)
    requires Strip(state) != ACKNOWLEDGED
    requires k in CONDITIONAL_FIELDS && Present(raw, k)
    ensures ValidatePatch(raw, Some(Some(state))) == Err(InvalidRequest)
  {
  }

  /**
   * The state context matters only to a patch that sets a conditional field: one that
   * leaves them unset, or sets them to null, is judged alike in every state and without a
   * context; so is any patch while the order is acknowledged or has no state.
   */
  lemma PatchContextIrrelevant(raw: map<string, Json>, c1: Option<Option<string>>, c2: Option<Option<string>>)
    requires
      || (forall k | k in CONDITIONAL_FIELDS :: !Present(raw, k))
      || (forall c | c in [c1, c2] :: c.None? || c.value.None? || Strip(c.value.value) == ACKNOWLEDGED)
    ensures ValidatePatch(raw, c1) == ValidatePatch(raw, c2)
  {
    if forall c | c in [c1, c2] :: c.None? || c.value.None? || Strip(c.value.value) == ACKNOWLEDGED {
      assert c1 in [c1, c2] && c2 in [c1, c2];
    }
  }

  /**
   * An accepted patch names no non-patchable field, its order item objects carry no id,
   * action or state, and it names a conditional field with a non-null value only while the
   * order is acknowledged (or the state is unknown).
   */
  lemma PatchAccepted(raw: map<string, Json>, context: Option<Option<string>>)
    requires ValidatePatch(raw, context).Ok?
    ensures forall k | k in raw :: k !in PATCH_NON_PATCHABLE_FIELDS
    ensures !SomeItemHasKey(raw, PATCH_NON_PATCHABLE_ORDER_ITEM_FIELDS)
    ensures (exists k | k in CONDITIONAL_FIELDS :: Present(raw, k)) ==>
      context.None? || context.value.None? || Strip(context.value.value) == ACKNOWLEDGED
    ensures CollectionsOk(raw) && AllOk(Items(raw, "orderItem"), ItemPatchOk)
  {
    forall k | k in raw ensures k !in PATCH_NON_PATCHABLE_FIELDS {
      assert k !in PATCH_NON_PATCHABLE_FIELDS * raw.Keys;
    }
  }

  /** The empty patch names no forbidden field and holds no order item. */
  lemma EmptyPatchKeys()
    ensures BeforePatch(map[]) == Pass
    ensures Items(map[], "orderItem") == []
  {
    var empty: map<string, Json> := map[];
    assert PATCH_NON_PATCHABLE_FIELDS * empty.Keys == {};
    assert ItemKeysCheck(empty, PATCH_NON_PATCHABLE_ORDER_ITEM_FIELDS) == Pass;
  }

  /** The empty patch passes field validation and the collection checks. */
  lemma EmptyPatchFields()
    ensures Conforms(ServiceOrderPatch, JObj(map[])) && CollectionsOk(map[])
  {
    EmptyObjectConforms(ServiceOrderPatch);
  }

  /** The empty patch is accepted whatever the order's state. */
  lemma EmptyPatchAccepted(context: Option<Option<string>>)
    ensures ValidatePatch(map[], context) == Ok(map[])
  {
    EmptyPatchKeys();
    EmptyPatchFields();
    assert StateRule(map[], context) == Pass;
  }
}
