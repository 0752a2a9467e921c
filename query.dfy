/**
 * The list query engine: the `fields` selection parser, the filters (exact matches and
 * date ranges, combined with AND), and the projection of stored orders onto selected fields.
 * ISO-8601 parsing is a parameter `parse`: it reads a normalised date-time text or fails.
 */
module Query {
  import opened Wrappers
  import opened Text
  import opened JsonValue
  import opened Schema

  const EXACT_FILTER_FIELDS: set<string> := {"state", "category", "externalId", "priority"}
  const DATE_FILTER_FIELDS: set<string> := {
    "orderDate", "completionDate", "requestedStartDate", "requestedCompletionDate",
    "expectedCompletionDate", "startDate"
  }
  const DATE_OPERATORS: set<string> := {"gt", "lt", "gte", "lte"}

  // ---------------------------------------------------------------------------------------
  // parse_fields

  /**
   * `parse_fields`: no selection stays None; otherwise the comma-separated names, stripped,
   * without the blank ones, and an InvalidFieldSelection when none is left.
   */
  function ParseFields(fields: Option<string>): (r: Result<Option<seq<string>>>)
    ensures fields.None? ==> r == Ok(None)
    ensures fields.Some? && r.Ok? ==> r.value.Some? && |r.value.value| >= 1
    ensures fields.Some? && r.Ok? ==> forall i | 0 <= i < |r.value.value| :: SelectedName(r.value.value[i], ',')
    ensures fields.Some? && r.Ok? ==> r.value.value == NonBlankStripped(Split(fields.value, ','))
    ensures fields.Some? && r.Ok? ==> forall w :: w in r.value.value <==>
      w != "" && exists j :: 0 <= j < |Split(fields.value, ',')| && Strip(Split(fields.value, ',')[j]) == w
    ensures r.Err? <==> fields.Some? && AllBlank(Split(fields.value, ','))
    ensures r.Err? ==> r.error == InvalidFieldSelection
  {
    match fields
    case None => Ok(None)
    case Some(s) =>
      var names := NonBlankStripped(Split(s, ','));
      NonBlankStrippedNames(Split(s, ','), ',');
      NonBlankStrippedEmpty(Split(s, ','));
      NonBlankStrippedMembers(Split(s, ','));
      assert forall w :: w in names <==>
        w != "" && exists j :: 0 <= j < |Split(s, ',')| && Strip(Split(s, ',')[j]) == w;
      if names == [] then Err(InvalidFieldSelection) else Ok(Some(names))
  }

  /** Parsing a comma-joined list of field names gives the list back. */
  lemma ParseFieldsRoundTrip(names: seq<string>)
    requires |names| >= 1
    requires forall i | 0 <= i < |names| :: Token(names[i], ',')
    ensures ParseFields(Some(Join(names, ','))) == Ok(Some(names))
  {
    SplitJoin(names, ',');
    NonBlankStrippedKeeps(names, ',');
  }

  // ---------------------------------------------------------------------------------------
  // Filters

  datatype Op = Gt | Lt | Gte | Lte

  function OpName(op: Op): string {
    match op
    case Gt => "gt"
    case Lt => "lt"
    case Gte => "gte"
    case Lte => "lte"
  }

  function OpOf(s: string): (r: Option<Op>)
    ensures r.Some? <==> s in DATE_OPERATORS
    ensures r.Some? ==> OpName(r.value) == s
  {
    if s == "gt" then Some(Gt)
    else if s == "lt" then Some(Lt)
    else if s == "gte" then Some(Gte)
    else if s == "lte" then Some(Lte)
    else None
  }

  /** One filter parameter, resolved: an exact match, or a date range bounded by a UTC instant. */
  datatype Filter =
    | Exact(field: string, value: string)
    | DateRange(field: string, op: Op, bound: int)

  /** The text `_parse_datetime` hands to the ISO parser: stripped, with a final Z read as +00:00. */
  function NormalizeIso(value: string): (r: string)
    ensures !EndsWith(r, 'Z')
    ensures r == "" <==> AllSpace(value)
    ensures !EndsWith(Strip(value), 'Z') ==> r == Strip(value)
    ensures EndsWith(Strip(value), 'Z') ==> |r| == |Strip(value)| + 5 && r[|r| - 6..] == "+00:00"
  {
    var raw := Strip(value);
    StripEmptyIffBlank(value);
    if EndsWith(raw, 'Z') then raw[..|raw| - 1] + "+00:00" else raw
  }

  /** `_parse_datetime` as a UTC instant: an unparseable value is an InvalidFilter. */
  function ParseInstant(value: string, parse: string -> Option<DateTime>): (r: Result<int>)
    ensures r.Ok? <==> parse(NormalizeIso(value)).Some?
    ensures r.Ok? ==> r.value == Instant(parse(NormalizeIso(value)).value)
    ensures r.Err? ==> r.error == InvalidFilter
  {
    match parse(NormalizeIso(value))
    case None => Err(InvalidFilter)
    case Some(d) => Ok(Instant(d))
  }

  /** A trailing Z means UTC: it reads as the explicit +00:00 offset. */
  lemma ZuluIsUtcOffset(raw: string, parse: string -> Option<DateTime>)
    requires raw != "" && !IsSpace(raw[0]) && !IsSpace(raw[|raw| - 1])
    ensures ParseInstant(raw + "Z", parse) == ParseInstant(raw + "+00:00", parse)
  {
    var zulu := raw + "Z";
    var utc := raw + "+00:00";
    assert zulu[0] == raw[0] && zulu[|zulu| - 1] == 'Z';
    StripUnpadded(zulu);
    assert zulu[..|zulu| - 1] == raw;
    assert NormalizeIso(zulu) == utc;
    assert utc[0] == raw[0] && utc[|utc| - 1] == '0';
    StripUnpadded(utc);
    assert NormalizeIso(utc) == utc;
  }

  /**
   * Resolves one filter parameter as the loop body does: an exact-match field, else a
   * `dateField.op` key (split at its last `.`), else an InvalidFilter.
   */
  function Resolve(key: string, value: string, parse: string -> Option<DateTime>): (r: Result<Filter>)
    ensures key in EXACT_FILTER_FIELDS ==> r == Ok(Exact(key, value))
    ensures r.Ok? && r.value.DateRange? ==>
      && key !in EXACT_FILTER_FIELDS
      && r.value.field in DATE_FILTER_FIELDS
      && key == r.value.field + "." + OpName(r.value.op)
      && ParseInstant(value, parse) == Ok(r.value.bound)
    ensures r.Err? ==> r.error == InvalidFilter
  {
    if key in EXACT_FILTER_FIELDS then Ok(Exact(key, value))
    else if '.' in key then
      var (field, operator) := RSplitOnce(key, '.');
      if field in DATE_FILTER_FIELDS && OpOf(operator).Some? then
        var bound :- ParseInstant(value, parse);
        Ok(DateRange(field, OpOf(operator).value, bound))
      else Err(InvalidFilter)
    else Err(InvalidFilter)
  }

  /** A key for a date field and an operator resolves to that range, or fails with the value. */
  lemma ResolveDateKey(field: string, op: Op, value: string, parse: string -> Option<DateTime>)
    requires field in DATE_FILTER_FIELDS
    ensures ParseInstant(value, parse).Ok? ==>
      Resolve(field + "." + OpName(op), value, parse) == Ok(DateRange(field, op, ParseInstant(value, parse).value))
    ensures ParseInstant(value, parse).Err? ==>
      Resolve(field + "." + OpName(op), value, parse) == Err(InvalidFilter)
  {
    var key := field + "." + OpName(op);
    assert '.' !in OpName(op);
    RSplitOnceOf(field, OpName(op), '.');
    assert key == field + ['.'] + OpName(op);
    DateKeyIsNotExact(field, OpName(op));
    assert OpOf(OpName(op)) == Some(op);
  }

  /** A date field with a suffix is longer than any exact-match field. */
  lemma DateKeyIsNotExact(field: string, suffix: string)
    requires field in DATE_FILTER_FIELDS && suffix != ""
    ensures field + "." + suffix !in EXACT_FILTER_FIELDS
  {
    assert |field + "." + suffix| >= 11;
    assert forall w | w in EXACT_FILTER_FIELDS :: |w| <= 10;
  }

  /** Only an exact-match field or a `dateField.op` key ever resolves. */
  lemma ResolvedKeys(key: string, value: string, parse: string -> Option<DateTime>)
    requires Resolve(key, value, parse).Ok?
    ensures key in EXACT_FILTER_FIELDS || exists field, op :: field in DATE_FILTER_FIELDS && key == field + "." + OpName(op)
  {
    if key !in EXACT_FILTER_FIELDS {
      assert '.' in key;
      var (field, operator) := RSplitOnce(key, '.');
      assert field in DATE_FILTER_FIELDS && OpOf(operator).Some?;
      var op := OpOf(operator).value;
      assert key == field + "." + OpName(op);
    }
  }

  /** `_normalize_scalar` of a string-valued field: None reads as the empty string. */
  function NormalizeScalar(v: Option<string>): (r: string)
    ensures r == "" <==> v.None? || v == Some("")
    ensures r != "" ==> v == Some(r)
  {
    v.GetOr("")
  }

  /** The comparison a date range makes, between the stored instant and the bound. */
  function Compare(op: Op, at: int, bound: int): (r: bool)
    ensures at == bound ==> (r <==> op.Gte? || op.Lte?)
    ensures at != bound ==> (r <==> ((op.Gt? || op.Gte?) <==> at > bound))
  {
    match op
    case Gt => at > bound
    case Lt => at < bound
    case Gte => at >= bound
    case Lte => at <= bound
  }

  /**
   * Whether an order passes one filter. An exact filter compares the field's normalised
   * value; a date range needs the field to hold a date-time, read as UTC when naive.
   */
  function Matches(o: Order, f: Filter): (r: bool)
    ensures f.Exact? ==> (r <==> Str(o, f.field) == Some(f.value) || (Str(o, f.field).None? && f.value == ""))
    ensures f.DateRange? && r ==> f.field in o && o[f.field].JTime?
  {
    match f
    case Exact(field, value) => NormalizeScalar(Str(o, field)) == value
    case DateRange(field, op, bound) =>
      var v := Get(o, field);
      v.JTime? && Compare(op, Instant(v.t), bound)
  }

  /** An order whose date field is unset never passes a range on it. */
  lemma UnsetDateNeverMatches(o: Order, field: string, op: Op, bound: int)
    requires field !in o
    ensures !Matches(o, DateRange(field, op, bound))
  {
  }

  /** A naive stored date-time compares as the same wall-clock reading at offset zero. */
  lemma NaiveIsUtc(o: Order, field: string, op: Op, bound: int, local: int)
    requires field in o && o[field] == JTime(DateTime(local, None))
    ensures Matches(o, DateRange(field, op, bound)) == Compare(op, Instant(DateTime(local, Some(0))), bound)
  {
  }

  /** gt and lt are strict, gte and lte are not. */
  lemma BoundInclusion(at: int)
    ensures !Compare(Gt, at, at) && !Compare(Lt, at, at)
    ensures Compare(Gte, at, at) && Compare(Lte, at, at)
    ensures Compare(Gte, at + 1, at) && !Compare(Lte, at + 1, at)
  {
  }

  /** The list comprehension of one filter step: the orders passing `f`, in order. */
  function Where(orders: seq<Order>, f: Filter): (r: seq<Order>)
    ensures |r| <= |orders|
  {
    if orders == [] then []
    else (if Matches(orders[0], f) then [orders[0]] else []) + Where(orders[1..], f)
  }

  /** Every filter resolves; then they are the resolved filters, by key. */
  function ResolveAll(filters: map<string, string>, parse: string -> Option<DateTime>): (r: Result<map<string, Filter>>)
    ensures r.Ok? <==> forall k | k in filters :: Resolve(k, filters[k], parse).Ok?
    ensures r.Ok? ==> r.value.Keys == filters.Keys
    ensures r.Ok? ==> forall k | k in filters :: Ok(r.value[k]) == Resolve(k, filters[k], parse)
    ensures r.Err? ==> r.error == InvalidFilter
  {
    if forall k | k in filters :: Resolve(k, filters[k], parse).Ok? then
      Ok(map k | k in filters :: Resolve(k, filters[k], parse).value)
    else Err(InvalidFilter)
  }

  predicate MatchesAll(o: Order, fs: map<string, Filter>) {
    forall k | k in fs :: Matches(o, fs[k])
  }

  /** The orders passing every filter in `fs`, in their original order. */
  function Keep(orders: seq<Order>, fs: map<string, Filter>): (r: seq<Order>)
    ensures |r| <= |orders|
  {
    if orders == [] then []
    else (if MatchesAll(orders[0], fs) then [orders[0]] else []) + Keep(orders[1..], fs)
  }

  /**
   * What `apply_order_filters` returns: an InvalidFilter when any parameter does not
   * resolve, even for an empty list; otherwise the orders passing all of them.
   */
  function Filtered(orders: seq<Order>, filters: map<string, string>, parse: string -> Option<DateTime>): (r: Result<seq<Order>>)
    ensures r.Err? <==> exists k | k in filters :: Resolve(k, filters[k], parse).Err?
    ensures r.Err? ==> r.error == InvalidFilter
    ensures r.Ok? ==> |r.value| <= |orders|
  {
    var fs :- ResolveAll(filters, parse);
    Ok(Keep(orders, fs))
  }

  /** One more filter applied to an AND of filters gives the AND of all of them. */
  lemma {:induction false} WhereKeep(orders: seq<Order>, fs: map<string, Filter>, k: string, f: Filter)
    requires k !in fs
    ensures Where(Keep(orders, fs), f) == Keep(orders, fs[k := f])
  {
    if orders != [] {
      var o := orders[0];
      var rest := Keep(orders[1..], fs);
      WhereKeep(orders[1..], fs, k, f);
      MatchesAllAdd(o, fs, k, f);
      if MatchesAll(o, fs) {
        assert Keep(orders, fs) == [o] + rest;
        assert ([o] + rest)[1..] == rest;
      } else {
        assert Keep(orders, fs) == rest;
      }
    }
  }

  /** Passing one more filter and all the others is passing all of them. */
  lemma MatchesAllAdd(o: Order, fs: map<string, Filter>, k: string, f: Filter)
    requires k !in fs
    ensures MatchesAll(o, fs[k := f]) <==> MatchesAll(o, fs) && Matches(o, f)
  {
    var g := fs[k := f];
    if MatchesAll(o, fs) && Matches(o, f) {
      forall j | j in g ensures Matches(o, g[j]) {
        if j != k { assert j in fs; }
      }
    }
    if MatchesAll(o, g) {
      assert Matches(o, g[k]);
      forall j | j in fs ensures Matches(o, fs[j]) {
        assert g[j] == fs[j];
      }
    }
  }

  lemma KeepNone(orders: seq<Order>)
    ensures Keep(orders, map[]) == orders
  {
  }

  /**
   * `apply_order_filters`: the loop over the filter parameters, in whatever order the
   * mapping yields them, narrowing the list by each one or failing on the first that does not
   * resolve.
   */
  method ApplyOrderFilters(orders: seq<Order>, filters: map<string, string>, parse: string -> Option<DateTime>)
    returns (r: Result<seq<Order>>)
    ensures r == Filtered(orders, filters, parse)
  {
    var filtered := orders;
    var todo := filters.Keys;
    ghost var done: map<string, Filter> := map[];
    KeepNone(orders);
    while todo != {}
      invariant forall k :: k in filters <==> k in todo || k in done
      invariant forall k | k in todo :: k !in done
      invariant forall k | k in done :: Resolve(k, filters[k], parse) == Ok(done[k])
      invariant filtered == Keep(orders, done)
      decreases |todo|
    {
      var key :| key in todo;
      var f := Resolve(key, filters[key], parse);
      if f.Err? {
        OneUnresolvedFails(orders, filters, parse, key);
        return Err(InvalidFilter);
      }
      WhereKeep(orders, done, key, f.value);
      filtered := Where(filtered, f.value);
      done := done[key := f.value];
      todo := todo - {key};
    }
    ResolvedAll(filters, parse, done);
    return Ok(filtered);
  }

  /** A single parameter that does not resolve fails the whole call. */
  lemma OneUnresolvedFails(orders: seq<Order>, filters: map<string, string>, parse: string -> Option<DateTime>, key: string)
    requires key in filters && Resolve(key, filters[key], parse).Err?
    ensures Filtered(orders, filters, parse) == Err(InvalidFilter)
  {
  }

  /** Filters resolved one key at a time, for every key, are what ResolveAll gives. */
  lemma ResolvedAll(filters: map<string, string>, parse: string -> Option<DateTime>, done: map<string, Filter>)
    requires done.Keys == filters.Keys
    requires forall k | k in done :: Resolve(k, filters[k], parse) == Ok(done[k])
    ensures ResolveAll(filters, parse) == Ok(done)
  {
    var all := ResolveAll(filters, parse);
    assert all.Ok?;
    assert all.value == done;
  }

  /** Order-preserving subsequence. */
  predicate IsSubsequence(a: seq<Order>, b: seq<Order>)
    decreases |b|
  {
    if a == [] then true
    else if b == [] then false
    else (a[0] == b[0] && IsSubsequence(a[1..], b[1..])) || IsSubsequence(a, b[1..])
  }

  /** The filtered list keeps the relative order of the input: it is a subsequence of it. */
  lemma {:induction false} KeepIsSubsequence(orders: seq<Order>, fs: map<string, Filter>)
    ensures IsSubsequence(Keep(orders, fs), orders)
  {
    if orders != [] {
      KeepIsSubsequence(orders[1..], fs);
      if MatchesAll(orders[0], fs) {
        assert Keep(orders, fs)[1..] == Keep(orders[1..], fs);
      } else {
        if Keep(orders, fs) != [] {
          assert Keep(orders, fs) == Keep(orders[1..], fs);
        }
      }
    }
  }

  /** An order is in the filtered list exactly when it is in the input and passes every filter. */
  lemma {:induction false} KeepMembers(orders: seq<Order>, fs: map<string, Filter>, o: Order)
    ensures o in Keep(orders, fs) <==> o in orders && MatchesAll(o, fs)
  {
    if orders != [] {
      KeepMembers(orders[1..], fs, o);
      assert orders == [orders[0]] + orders[1..];
    }
  }

  /**
   * With every parameter valid the result is an order-preserving subsequence holding exactly
   * the orders passing each of them; with any parameter invalid it is an InvalidFilter.
   */
  lemma FilteredSemantics(orders: seq<Order>, filters: map<string, string>, parse: string -> Option<DateTime>)
    ensures (exists k | k in filters :: Resolve(k, filters[k], parse).Err?) ==>
      Filtered(orders, filters, parse) == Err(InvalidFilter)
    ensures (forall k | k in filters :: Resolve(k, filters[k], parse).Ok?) ==>
      && Filtered(orders, filters, parse).Ok?
      && IsSubsequence(Filtered(orders, filters, parse).value, orders)
      && forall o: Order :: o in Filtered(orders, filters, parse).value <==>
           o in orders && forall k | k in filters :: Matches(o, Resolve(k, filters[k], parse).value)
  {
    var fs := ResolveAll(filters, parse);
    if fs.Ok? {
      KeepIsSubsequence(orders, fs.value);
      forall o: Order
        ensures o in Keep(orders, fs.value) <==>
          o in orders && forall k | k in filters :: Matches(o, Resolve(k, filters[k], parse).value)
      {
        KeepMembers(orders, fs.value, o);
      }
    }
  }

  /** An exact filter keeps exactly the orders whose normalised field value equals it. */
  lemma ExactFilterKeeps(orders: seq<Order>, key: string, value: string, parse: string -> Option<DateTime>, o: Order)
    requires key in EXACT_FILTER_FIELDS
    ensures Filtered(orders, map[key := value], parse).Ok?
    ensures o in Filtered(orders, map[key := value], parse).value <==>
      o in orders && NormalizeScalar(Str(o, key)) == value
  {
    assert Resolve(key, value, parse) == Ok(Exact(key, value));
    var fs := ResolveAll(map[key := value], parse).value;
    KeepMembers(orders, fs, o);
    assert fs.Keys == {key} && fs[key] == Exact(key, value);
    assert MatchesAll(o, fs) <==> Matches(o, fs[key]);
  }

  /** An unparseable date bound fails the whole call, also when there is no order to filter. */
  lemma UnparseableBoundFails(orders: seq<Order>, filters: map<string, string>, field: string, op: Op,
                              parse: string -> Option<DateTime>)
    requires field in DATE_FILTER_FIELDS
    requires field + "." + OpName(op) in filters
    requires ParseInstant(filters[field + "." + OpName(op)], parse).Err?
    ensures Filtered(orders, filters, parse) == Err(InvalidFilter)
    ensures Filtered([], filters, parse) == Err(InvalidFilter)
  {
    ResolveDateKey(field, op, filters[field + "." + OpName(op)], parse);
  }

  // ---------------------------------------------------------------------------------------
  // Projection

  /**
   * `project_order`: without a selection, the stored dump; with one, an InvalidFieldSelection
   * when it names anything but a declared ServiceOrder field, and otherwise exactly the
   * selected names, each holding that field's full dump (null for an unset field).
   */
  function ProjectOrder(o: Order, fields: Option<seq<string>>): (r: Result<map<string, Json>>)
    ensures fields.None? ==> r == Ok(StoredForm(o))
    ensures fields.Some? ==> (r.Err? <==> exists i :: 0 <= i < |fields.value| && fields.value[i] !in ORDER_FIELDS)
    ensures r.Err? ==> r.error == InvalidFieldSelection
    ensures r.Ok? && fields.Some? ==>
      && (forall k :: k in r.value <==> k in fields.value)
      && forall k | k in r.value :: r.value[k] == MemberFull(ServiceOrder, k, Get(o, k))
  {
    match fields
    case None => Ok(StoredForm(o))
    case Some(fs) =>
      if exists i :: 0 <= i < |fs| && fs[i] !in ORDER_FIELDS then Err(InvalidFieldSelection)
      else
        var full := FullDump(o);
        FullDumpGet(o);
        Ok(map k | k in fs :: full[k])
  }

  /**
   * A projection of an order loses nothing: without a selection it is the order itself, and
   * each selected field dumps back to the order's own member.
   */
  lemma ProjectionLossless(o: Order, fields: Option<seq<string>>)
    requires IsOrder(o)
    ensures fields.None? ==> ProjectOrder(o, fields) == Ok(o)
    ensures var r := ProjectOrder(o, fields);
      r.Ok? && fields.Some? ==> forall k | k in r.value :: MemberDump(ServiceOrder, k, r.value[k]) == Get(o, k)
  {
    var r := ProjectOrder(o, fields);
    if r.Ok? && fields.Some? {
      forall k | k in r.value ensures MemberDump(ServiceOrder, k, r.value[k]) == Get(o, k) {
        GetDump(ServiceOrder, o, k);
        MemberDumpFull(ServiceOrder, k, Get(o, k));
      }
    }
  }

  /** Whether a selection is refused depends on the selection only, never on the order. */
  lemma ProjectionErrorIndependent(o1: Order, o2: Order, fields: Option<seq<string>>)
    ensures ProjectOrder(o1, fields).Err? <==> ProjectOrder(o2, fields).Err?
  {
  }

  /** `project_orders`: each order projected, failing when any projection does. */
  function ProjectOrders(orders: seq<Order>, fields: Option<seq<string>>): (r: Result<seq<map<string, Json>>>)
    ensures orders == [] ==> r == Ok([])
    ensures r.Err? <==> exists i :: 0 <= i < |orders| && ProjectOrder(orders[i], fields).Err?
    ensures r.Ok? ==> |r.value| == |orders| && forall i | 0 <= i < |orders| :: ProjectOrder(orders[i], fields) == Ok(r.value[i])
  {
    if orders == [] then Ok([])
    else
      var head :- ProjectOrder(orders[0], fields);
      ProjectionErrorIndependent(orders[0], orders[|orders| - 1], fields);
      var tail :- ProjectOrders(orders[1..], fields);
      assert forall i | 1 <= i < |orders| :: orders[i] == orders[1..][i - 1];
      Ok([head] + tail)
  }
}
