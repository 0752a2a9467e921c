/**
 * The TMF641 resource models as schema tables: for each model, the wire name (alias) and
 * type of every declared field, and which fields are required. `Conforms` is what pydantic's
 * field validation checks of a member tree; extra members are allowed everywhere and are not
 * checked. `Order` is a ServiceOrder as the store keeps it: a member map that, once validated, is
 * conforming, with unset members left out.
 */
module Schema {
  import opened Wrappers
  import opened JsonValue

  datatype Model =
    | Characteristic
    | Note
    | Place
    | RelatedParty
    | AppointmentRef
    | ResourceRef
    | ServiceRef
    | TargetServiceSchema
    | ServiceSpecificationRef
    | ServiceRelationship
    | ServiceOrderItemRelationship
    | ServiceOrderRelationship
    | ServiceRestriction
    | ServiceOrderItem
    | ServiceOrder
    | ServiceOrderItemCreate
    | ServiceOrderCreate
    | ServiceOrderItemPatch
    | ServiceOrderPatch

  /** The declared type of a field; every field but the required ones also admits None. */
  datatype FieldType =
    | TStr
    | TDate
    | TAny
    | TEnum(values: set<string>)
    | TModel(model: Model)
    | TList(element: Model)

  /** A declared type that holds no nested model. */
  type Scalar = t: FieldType | !t.TModel? && !t.TList? witness TStr

  const ACTIONS: set<string> := {"add", "modify", "delete", "noChange"}
  const ORDER_STATES: set<string> := {
    "acknowledged", "inProgress", "cancelled", "completed", "rejected", "partial"
  }
  const ITEM_STATES: set<string> := {"acknowledged", "inProgress", "cancelled", "completed", "rejected"}
  const SERVICE_STATES: set<string> := {
    "feasibilityChecked", "designed", "reserved", "inactive", "active", "terminated"
  }
  const ACKNOWLEDGED: string := "acknowledged"

  /** The `@` fields every TMF entity declares. */
  const ENTITY: map<string, Scalar> := map["@baseType" := TStr, "@schemaLocation" := TStr, "@type" := TStr]

  /** The fields every TMF reference declares. */
  const REF: map<string, Scalar> := map["@referredType" := TStr, "href" := TStr, "id" := TStr]

  const ITEM_COMMON: map<string, FieldType> := ENTITY + map[
    "appointment" := TModel(AppointmentRef),
    "orderItemRelationship" := TList(ServiceOrderItemRelationship),
    "relatedParty" := TList(RelatedParty),
    "service" := TModel(ServiceRestriction)]

  /** The plain fields an order, create payload and patch payload share. */
  const ORDER_COMMON: map<string, Scalar> := ENTITY + map[
    "category" := TStr, "description" := TStr, "notificationContact" := TStr,
    "requestedCompletionDate" := TDate, "requestedStartDate" := TDate]

  /** The nested-model fields an order, create payload and patch payload share. */
  const ORDER_COMMON_NESTED: map<string, FieldType> := map[
    "note" := TList(Note), "orderRelationship" := TList(ServiceOrderRelationship),
    "relatedParty" := TList(RelatedParty)]

  /** The plain fields of a ServiceOrder besides the shared ones. */
  const ORDER_OWN: map<string, Scalar> := map[
    "completionDate" := TDate, "expectedCompletionDate" := TDate, "externalId" := TStr,
    "href" := TStr, "id" := TStr, "orderDate" := TDate, "priority" := TStr,
    "startDate" := TDate, "state" := TEnum(ORDER_STATES)]

  /** The plain fields of a ServiceOrderCreate besides the shared ones. */
  const CREATE_OWN: map<string, Scalar> := map["externalId" := TStr, "priority" := TStr]

  /** The declared fields of each model, by wire name. */
  function Fields(m: Model): map<string, FieldType> {
    match m
    case Characteristic => map["name" := TStr, "value" := TAny, "valueType" := TStr]
    case Note => map["author" := TStr, "date" := TDate, "system" := TStr, "text" := TStr]
    case Place => map["href" := TStr, "id" := TStr, "name" := TStr, "role" := TStr]
    case RelatedParty => ENTITY + REF + map["name" := TStr, "role" := TStr]
    case AppointmentRef => REF + map["description" := TStr]
    case ResourceRef => REF + map["name" := TStr]
    case ServiceRef => REF
    case TargetServiceSchema => map["@schemaLocation" := TStr, "@type" := TStr]
    case ServiceSpecificationRef =>
      REF + map["name" := TStr, "targetServiceSchema" := TModel(TargetServiceSchema), "version" := TStr]
    case ServiceRelationship => map["relationshipType" := TStr, "service" := TModel(ServiceRef)]
    case ServiceOrderItemRelationship => map["id" := TStr, "relationshipType" := TStr]
    case ServiceOrderRelationship => REF + map["relationshipType" := TStr]
    case ServiceRestriction => ENTITY + map[
      "category" := TStr, "href" := TStr, "id" := TStr, "name" := TStr,
      "place" := TList(Place), "relatedParty" := TList(RelatedParty),
      "serviceCharacteristic" := TList(Characteristic),
      "serviceRelationship" := TList(ServiceRelationship),
      "serviceSpecification" := TModel(ServiceSpecificationRef), "serviceType" := TStr,
      "state" := TEnum(SERVICE_STATES), "supportingResource" := TList(ResourceRef),
      "supportingService" := TList(ServiceRef)]
    case ServiceOrderItem =>
      ITEM_COMMON + map["action" := TEnum(ACTIONS), "id" := TStr, "state" := TEnum(ITEM_STATES)]
    case ServiceOrder =>
      ORDER_COMMON + ORDER_OWN + ORDER_COMMON_NESTED + map["orderItem" := TList(ServiceOrderItem)]
    case ServiceOrderItemCreate => ITEM_COMMON + map["action" := TEnum(ACTIONS), "id" := TStr]
    case ServiceOrderCreate =>
      ORDER_COMMON + CREATE_OWN + ORDER_COMMON_NESTED + map["orderItem" := TList(ServiceOrderItemCreate)]
    case ServiceOrderItemPatch => ITEM_COMMON
    case ServiceOrderPatch => ORDER_COMMON + ORDER_COMMON_NESTED + map[
      "expectedCompletionDate" := TDate, "orderItem" := TList(ServiceOrderItemPatch),
      "startDate" := TDate]
  }

  /** The fields declared without a default: they must be present and not null. */
  function Required(m: Model): set<string> {
    match m
    case ServiceOrderItemCreate => {"action", "id", "service"}
    case ServiceOrderCreate => {"orderItem"}
    case _ => {}
  }

  /** The `min_length` of a list field (1 for a create payload's orderItem, else none). */
  function MinLength(m: Model, k: string): nat {
    if m == ServiceOrderCreate && k == "orderItem" then 1 else 0
  }

  /** Field validation of a member tree against model `m` (extra members are not checked). */
  predicate Conforms(m: Model, j: Json)
    decreases j, 0
  {
    && j.JObj?
    && (forall k | k in Required(m) :: k in j.members && !j.members[k].JNull?)
    && (forall k | k in j.members && k in Fields(m) ::
          assert j.members[k] in j.members.Values;
          FieldConforms(Fields(m)[k], j.members[k], MinLength(m, k)))
  }

  /** A value admitted by a field of type `t` (None is admitted by every optional field). */
  predicate FieldConforms(t: FieldType, v: Json, minLength: nat)
    decreases v, 1
  {
    || v.JNull?
    || match t
       case TStr => v.JStr?
       case TDate => v.JTime?
       case TAny => true
       case TEnum(values) => v.JStr? && v.s in values
       case TModel(n) => Conforms(n, v)
       case TList(n) =>
         v.JArr? && |v.items| >= minLength && forall i | 0 <= i < |v.items| :: Conforms(n, v.items[i])
  }

  lemma CreateFieldFacts()
    ensures Required(ServiceOrderCreate) == {"orderItem"}
    ensures "orderItem" in Fields(ServiceOrderCreate)
    ensures Fields(ServiceOrderCreate)["orderItem"] == TList(ServiceOrderItemCreate)
  {
  }

  lemma ItemCreateFieldFacts()
    ensures Required(ServiceOrderItemCreate) == {"action", "id", "service"}
    ensures "action" in Fields(ServiceOrderItemCreate) && Fields(ServiceOrderItemCreate)["action"] == TEnum(ACTIONS)
    ensures "id" in Fields(ServiceOrderItemCreate) && Fields(ServiceOrderItemCreate)["id"] == TStr
    ensures "service" in Fields(ServiceOrderItemCreate)
    ensures Fields(ServiceOrderItemCreate)["service"] == TModel(ServiceRestriction)
  {
  }

  /** An empty object conforms to every model that requires no field. */
  lemma EmptyObjectConforms(m: Model)
    requires Required(m) == {}
    ensures Conforms(m, JObj(map[]))
  {
  }

  /** The order items of an order are ServiceOrderItem models. */
  lemma OrderItemField()
    ensures "orderItem" in Fields(ServiceOrder) && Fields(ServiceOrder)["orderItem"] == TList(ServiceOrderItem)
  {
    var items := map["orderItem" := TList(ServiceOrderItem)];
    assert Fields(ServiceOrder) == ORDER_COMMON + ORDER_OWN + ORDER_COMMON_NESTED + items;
  }

  /** The state of an order item is one of the item states. */
  lemma ItemStateField()
    ensures "state" in Fields(ServiceOrderItem) && Fields(ServiceOrderItem)["state"] == TEnum(ITEM_STATES)
  {
    var own := map["action" := TEnum(ACTIONS), "id" := TStr, "state" := TEnum(ITEM_STATES)];
    assert Fields(ServiceOrderItem) == ITEM_COMMON + own;
  }

  /** The wire names a ServiceOrder field selection may name: its declared fields. */
  const ORDER_FIELDS: set<string> := Fields(ServiceOrder).Keys

  // ---------------------------------------------------------------------------------------
  // Dumps

  /**
   * `model_dump(exclude_none=True)` of a tree validated as model `m`: the null members are
   * left out at every level reached through a declared model or list-of-models field;
   * extra members and values of any other declared type are kept as they are.
   */
  function DumpTree(m: Model, j: Json): Json
    decreases j, 0
  {
    if j.JObj? then
      JObj(map k | k in j.members && !j.members[k].JNull? ::
        assert j.members[k] in j.members.Values;
        MemberDump(m, k, j.members[k]))
    else j
  }

  /** The dump of member `k` of a model-`m` object. */
  function MemberDump(m: Model, k: string, v: Json): Json
    decreases v, 2
  {
    if k in Fields(m) then DumpValue(Fields(m)[k], v) else v
  }

  /** The dump of a value of declared type `t`. */
  function DumpValue(t: FieldType, v: Json): Json
    decreases v, 1
  {
    match t
    case TModel(n) => DumpTree(n, v)
    case TList(n) =>
      if v.JArr? then JArr(seq(|v.items|, i requires 0 <= i < |v.items| => DumpTree(n, v.items[i])))
      else v
    case _ => v
  }

  /**
   * `model_dump(exclude_none=False)` of a tree validated as model `m`: every declared field
   * is present, null when unset, at every level reached through a declared model or
   * list-of-models field; extra members are kept.
   */
  function FullTree(m: Model, j: Json): Json
    decreases j, 0
  {
    if j.JObj? then
      JObj(map k | k in j.members.Keys + Fields(m).Keys ::
        if k in j.members then
          assert j.members[k] in j.members.Values;
          MemberFull(m, k, j.members[k])
        else JNull)
    else j
  }

  /** The full dump of member `k` of a model-`m` object. */
  function MemberFull(m: Model, k: string, v: Json): Json
    decreases v, 2
  {
    if k in Fields(m) then FullValue(Fields(m)[k], v) else v
  }

  /** The full dump of a value of declared type `t`. */
  function FullValue(t: FieldType, v: Json): Json
    decreases v, 1
  {
    match t
    case TModel(n) => FullTree(n, v)
    case TList(n) =>
      if v.JArr? then JArr(seq(|v.items|, i requires 0 <= i < |v.items| => FullTree(n, v.items[i])))
      else v
    case _ => v
  }

  /** Neither dump turns a null into a value or a value into null. */
  lemma ValueNullKept(t: FieldType, v: Json)
    ensures DumpValue(t, v).JNull? <==> v.JNull?
    ensures FullValue(t, v).JNull? <==> v.JNull?
  {
  }

  lemma NullKept(m: Model, k: string, v: Json)
    ensures MemberDump(m, k, v).JNull? <==> v.JNull?
    ensures MemberFull(m, k, v).JNull? <==> v.JNull?
  {
    if k in Fields(m) {
      ValueNullKept(Fields(m)[k], v);
    }
  }

  /** What `get` reads from a dump is the dump of what it reads from the tree. */
  lemma GetDump(m: Model, o: map<string, Json>, k: string)
    ensures Get(DumpTree(m, JObj(o)).members, k) == MemberDump(m, k, Get(o, k))
    ensures Get(FullTree(m, JObj(o)).members, k) == MemberFull(m, k, Get(o, k))
  {
    NullKept(m, k, Get(o, k));
  }

  /** A dump has no null member. */
  lemma DumpNullFree(m: Model, o: map<string, Json>)
    ensures NullFree(DumpTree(m, JObj(o)).members)
  {
    forall k | k in DumpTree(m, JObj(o)).members ensures !DumpTree(m, JObj(o)).members[k].JNull? {
      NullKept(m, k, o[k]);
    }
  }

  /** Dumping a dump changes nothing. */
  lemma {:induction false} DumpTreeIdempotent(m: Model, j: Json)
    ensures DumpTree(m, DumpTree(m, j)) == DumpTree(m, j)
    decreases j, 0
  {
    if j.JObj? {
      var d := DumpTree(m, j).members;
      DumpNullFree(m, j.members);
      forall k | k in d ensures MemberDump(m, k, d[k]) == d[k] {
        assert j.members[k] in j.members.Values;
        MemberDumpIdempotent(m, k, j.members[k]);
      }
      assert DumpTree(m, JObj(d)).members == d;
    }
  }

  lemma {:induction false} MemberDumpIdempotent(m: Model, k: string, v: Json)
    ensures MemberDump(m, k, MemberDump(m, k, v)) == MemberDump(m, k, v)
    decreases v, 2
  {
    if k in Fields(m) {
      DumpValueIdempotent(Fields(m)[k], v);
    }
  }

  lemma {:induction false} DumpValueIdempotent(t: FieldType, v: Json)
    ensures DumpValue(t, DumpValue(t, v)) == DumpValue(t, v)
    decreases v, 1
  {
    match t
    case TModel(n) => DumpTreeIdempotent(n, v);
    case TList(n) =>
      if v.JArr? {
        var once := DumpValue(t, v).items;
        forall i | 0 <= i < |v.items| ensures DumpTree(n, once[i]) == once[i] {
          DumpTreeIdempotent(n, v.items[i]);
        }
        assert DumpValue(t, DumpValue(t, v)).items == once;
      }
    case _ =>
  }

  /** The dump of the full dump is the dump: filling in nulls loses nothing. */
  lemma {:induction false} DumpFullTree(m: Model, j: Json)
    ensures DumpTree(m, FullTree(m, j)) == DumpTree(m, j)
    decreases j, 0
  {
    if j.JObj? {
      var f := FullTree(m, j).members;
      var lhs := DumpTree(m, JObj(f)).members;
      var rhs := DumpTree(m, j).members;
      forall k ensures Get(lhs, k) == Get(rhs, k) {
        GetDump(m, f, k);
        GetDump(m, j.members, k);
        if k in j.members {
          assert j.members[k] in j.members.Values;
          MemberDumpFull(m, k, j.members[k]);
        }
      }
      DumpNullFree(m, f);
      DumpNullFree(m, j.members);
      NullFreeByGet(lhs, rhs);
    }
  }

  lemma {:induction false} MemberDumpFull(m: Model, k: string, v: Json)
    ensures MemberDump(m, k, MemberFull(m, k, v)) == MemberDump(m, k, v)
    decreases v, 2
  {
    if k in Fields(m) {
      DumpFullValue(Fields(m)[k], v);
    }
  }

  lemma {:induction false} DumpFullValue(t: FieldType, v: Json)
    ensures DumpValue(t, FullValue(t, v)) == DumpValue(t, v)
    decreases v, 1
  {
    match t
    case TModel(n) => DumpFullTree(n, v);
    case TList(n) =>
      if v.JArr? {
        forall i | 0 <= i < |v.items| ensures DumpTree(n, FullTree(n, v.items[i])) == DumpTree(n, v.items[i]) {
          DumpFullTree(n, v.items[i]);
        }
        assert DumpValue(t, FullValue(t, v)).items == DumpValue(t, v).items;
      }
    case _ =>
  }

  /** A tree conforms exactly when its dump does: dropping nulls never changes the verdict. */
  lemma {:induction false} ConformsDump(m: Model, j: Json)
    ensures Conforms(m, j) <==> Conforms(m, DumpTree(m, j))
    decreases j, 0
  {
    if j.JObj? {
      var d := DumpTree(m, j).members;
      forall k | k in Required(m) ensures (k in j.members && !j.members[k].JNull?) <==> (k in d && !d[k].JNull?) {
        if k in j.members {
          NullKept(m, k, j.members[k]);
        }
      }
      forall k | k in j.members && k in Fields(m)
        ensures FieldConforms(Fields(m)[k], j.members[k], MinLength(m, k)) <==>
          (k in d ==> FieldConforms(Fields(m)[k], d[k], MinLength(m, k)))
      {
        assert j.members[k] in j.members.Values;
        MemberConformsDump(m, k, j.members[k]);
      }
      assert d.Keys <= j.members.Keys;
    }
  }

  lemma {:induction false} MemberConformsDump(m: Model, k: string, v: Json)
    requires k in Fields(m)
    ensures FieldConforms(Fields(m)[k], v, MinLength(m, k)) <==>
      (!v.JNull? ==> FieldConforms(Fields(m)[k], MemberDump(m, k, v), MinLength(m, k)))
    decreases v, 2
  {
    FieldConformsDump(Fields(m)[k], v, MinLength(m, k));
  }

  lemma {:induction false} FieldConformsDump(t: FieldType, v: Json, minLength: nat)
    ensures FieldConforms(t, v, minLength) <==> FieldConforms(t, DumpValue(t, v), minLength)
    decreases v, 1
  {
    match t
    case TModel(n) => ConformsDump(n, v);
    case TList(n) =>
      if v.JArr? {
        forall i | 0 <= i < |v.items| ensures Conforms(n, v.items[i]) <==> Conforms(n, DumpValue(t, v).items[i]) {
          ConformsDump(n, v.items[i]);
        }
      }
    case _ =>
  }

  /** The full dump of a conforming tree conforms: every filled-in member is an optional null. */
  lemma {:induction false} FullTreeConforms(m: Model, j: Json)
    requires Conforms(m, j)
    ensures Conforms(m, FullTree(m, j))
    decreases j, 0
  {
    var f := FullTree(m, j).members;
    forall k | k in Required(m) ensures k in f && !f[k].JNull? {
      NullKept(m, k, j.members[k]);
    }
    forall k | k in f && k in Fields(m) ensures FieldConforms(Fields(m)[k], f[k], MinLength(m, k)) {
      if k in j.members {
        assert j.members[k] in j.members.Values;
        MemberFullConforms(m, k, j.members[k]);
      }
    }
  }

  lemma {:induction false} MemberFullConforms(m: Model, k: string, v: Json)
    requires k in Fields(m) && FieldConforms(Fields(m)[k], v, MinLength(m, k))
    ensures FieldConforms(Fields(m)[k], MemberFull(m, k, v), MinLength(m, k))
    decreases v, 2
  {
    FullValueConforms(Fields(m)[k], v, MinLength(m, k));
  }

  lemma {:induction false} FullValueConforms(t: FieldType, v: Json, minLength: nat)
    requires FieldConforms(t, v, minLength)
    ensures FieldConforms(t, FullValue(t, v), minLength)
    decreases v, 1
  {
    if !v.JNull? {
      match t
      case TModel(n) => FullTreeConforms(n, v);
      case TList(n) =>
        forall i | 0 <= i < |v.items| ensures Conforms(n, FullValue(t, v).items[i]) {
          FullTreeConforms(n, v.items[i]);
        }
      case _ =>
    }
  }

  /**
   * A ServiceOrder as stored: the member map of its `model_dump(exclude_none=True)`. Every
   * order the services build satisfies `IsOrder`; that is kept as an invariant of the order
   * service rather than as a subset type.
   */
  type Order = map<string, Json>

  /** The stored form of data validated as a ServiceOrder: its `exclude_none` dump. */
  function StoredForm(data: map<string, Json>): map<string, Json> {
    DumpTree(ServiceOrder, JObj(data)).members
  }

  /** A conforming ServiceOrder member map without a null member at any declared depth. */
  predicate IsOrder(o: map<string, Json>) {
    Conforms(ServiceOrder, JObj(o)) && StoredForm(o) == o
  }

  /** The stored form is a fixed point of dumping and holds no null member. */
  lemma StoredFormClean(data: map<string, Json>)
    ensures StoredForm(StoredForm(data)) == StoredForm(data)
    ensures NullFree(StoredForm(data))
  {
    DumpTreeIdempotent(ServiceOrder, JObj(data));
    DumpNullFree(ServiceOrder, data);
  }

  /** The order and create-payload fields that hold nested models. */
  const ORDER_NESTED_FIELDS: set<string> := {"note", "orderItem", "orderRelationship", "relatedParty"}

  /** Every ServiceOrder member outside the nested fields is dumped as it is. */
  lemma OrderScalarMember(k: string, v: Json)
    requires k !in ORDER_NESTED_FIELDS
    ensures MemberDump(ServiceOrder, k, v) == v && MemberFull(ServiceOrder, k, v) == v
  {
    if k in Fields(ServiceOrder) {
      var plain: map<string, Scalar> := ORDER_COMMON + ORDER_OWN;
      assert k in plain && Fields(ServiceOrder)[k] == plain[k];
    }
  }

  /** Every create-payload member outside the nested fields is dumped as it is. */
  lemma CreateScalarMember(k: string, v: Json)
    requires k !in ORDER_NESTED_FIELDS
    ensures MemberDump(ServiceOrderCreate, k, v) == v
  {
    if k in Fields(ServiceOrderCreate) {
      var plain: map<string, Scalar> := ORDER_COMMON + CREATE_OWN;
      assert k in plain && Fields(ServiceOrderCreate)[k] == plain[k];
    }
  }

  /** An order member outside the nested fields reads the same in the stored form. */
  lemma StoredScalar(data: map<string, Json>, k: string)
    requires k !in ORDER_NESTED_FIELDS
    ensures Get(StoredForm(data), k) == Get(data, k)
  {
    GetDump(ServiceOrder, data, k);
    OrderScalarMember(k, Get(data, k));
  }

  /** `model_dump(exclude_none=False)` of a stored order. */
  function FullDump(o: Order): (d: map<string, Json>)
    ensures d.Keys == o.Keys + ORDER_FIELDS
  {
    FullTree(ServiceOrder, JObj(o)).members
  }

  /** Each member of the full dump is the full dump of the order's member. */
  lemma FullDumpGet(o: Order)
    ensures forall k :: Get(FullDump(o), k) == MemberFull(ServiceOrder, k, Get(o, k))
  {
    forall k ensures Get(FullDump(o), k) == MemberFull(ServiceOrder, k, Get(o, k)) {
      GetDump(ServiceOrder, o, k);
    }
  }

  /**
   * `ServiceOrder.model_validate(data)` followed by the stored form: accepted exactly when
   * the data conforms to ServiceOrder, and then its null members are unset at every depth,
   * which leaves an order.
   */
  function Revalidate(data: map<string, Json>): (r: Result<Order>)
    ensures r.Ok? <==> Conforms(ServiceOrder, JObj(data))
    ensures r.Ok? ==> r.value == StoredForm(data) && IsOrder(r.value)
    ensures r.Err? ==> r.error == InvalidRequest
  {
    if Conforms(ServiceOrder, JObj(data)) then
      ConformsDump(ServiceOrder, JObj(data));
      StoredFormClean(data);
      Ok(StoredForm(data))
    else Err(InvalidRequest)
  }

  /** Validating a full dump gives the order back. */
  lemma DumpRoundTrip(o: Order)
    requires IsOrder(o)
    ensures Revalidate(FullDump(o)) == Ok(o)
  {
    FullTreeConforms(ServiceOrder, JObj(o));
    DumpFullTree(ServiceOrder, JObj(o));
  }

  /** The string held by member `k`, and None when it is unset or not a string. */
  function Str(m: map<string, Json>, k: string): (r: Option<string>)
    ensures r.Some? <==> k in m && m[k].JStr?
    ensures r.Some? ==> m[k] == JStr(r.value)
  {
    if k in m && m[k].JStr? then Some(m[k].s) else None
  }

  /** The elements of list member `k` (`value or []`), and none when it is not a list. */
  function Items(m: map<string, Json>, k: string): (r: seq<Json>)
    ensures k in m && m[k].JArr? ==> r == m[k].items
    ensures !(k in m && m[k].JArr?) ==> r == []
  {
    if k in m && m[k].JArr? then m[k].items else []
  }
}
