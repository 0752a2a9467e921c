/**
 * The semi-structured values the service moves around: request bodies, model dumps and
 * patch documents. Dumps taken in pydantic's python mode hold `datetime` objects, so the
 * tree has a date-time leaf besides the JSON ones.
 */
module JsonValue {
  import opened Wrappers

  /**
   * A `datetime`: the wall-clock reading `local` (in whatever unit the source's resolution
   * is) and, for an aware value, the UTC offset in the same unit. A naive value has no offset.
   */
  datatype DateTime = DateTime(local: int, offset: Option<int>)

  /** The UTC instant of a date-time, reading a naive value as UTC. */
  function Instant(d: DateTime): int {
    d.local - d.offset.GetOr(0)
  }

  datatype Json =
    | JNull
    | JBool(b: bool)
    | JInt(i: int)
    | JStr(s: string)
    | JTime(t: DateTime)
    | JArr(items: seq<Json>)
    | JObj(members: map<string, Json>)

  /** Python's `d.get(key)`: the member's value, or None when the key is absent. */
  function Get(m: map<string, Json>, key: string): Json {
    if key in m then m[key] else JNull
  }

  /** The members of an object, and nothing for any other value. */
  function Members(j: Json): map<string, Json> {
    if j.JObj? then j.members else map[]
  }

  /** A member map without null members. */
  predicate NullFree(m: map<string, Json>) {
    forall k | k in m :: !m[k].JNull?
  }

  /** Two member maps without null members that `get` reads alike are equal. */
  lemma NullFreeByGet(a: map<string, Json>, b: map<string, Json>)
    requires NullFree(a) && NullFree(b)
    requires forall k :: Get(a, k) == Get(b, k)
    ensures a == b
  {
    forall k ensures k in a <==> k in b {
      assert Get(a, k) == Get(b, k);
    }
    assert a.Keys == b.Keys;
    forall k | k in a ensures a[k] == b[k] {
      assert Get(a, k) == Get(b, k);
    }
  }
}
