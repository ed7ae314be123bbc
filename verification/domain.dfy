/**
 * The data both stores hold.  The primary store (the relational table of
 * businesses) maps a business id to its record; the geo-index (one Redis
 * GEO key) maps the same id to a (longitude, latitude) point.  Services
 * touch the stores only through the effects below, so every operation can
 * report the exact order of its writes.
 */
module Domain {
  import opened Common

  /** A business id; the Java code generates it as a random UUID string. */
  type Id = string

  /** A geo-index point, longitude first as Redis stores it. */
  datatype Point = Point(longitude: real, latitude: real)

  /** One row of the primary store. Timestamps are not modelled. */
  datatype Business = Business(
    id: Id,
    name: string,
    address: string,
    latitude: real,
    longitude: real,
    category: string,
    phone: Option<string>,
    hours: Option<string>)

  /** The caller-supplied fields of a create, update or seed request. */
  datatype BusinessRequest = BusinessRequest(
    name: string,
    address: string,
    latitude: real,
    longitude: real,
    category: string,
    phone: Option<string>,
    hours: Option<string>)

  /** The ids listed in `ids`, as a set. */
  function IdSet(ids: seq<Id>): set<Id>
    decreases |ids|
  {
    if ids == [] then {} else IdSet(ids[..|ids| - 1]) + {ids[|ids| - 1]}
  }

  /** The point the geo-index keeps for a record. */
  function Location(b: Business): Point {
    Point(b.longitude, b.latitude)
  }

  /** The record the Business constructor builds from a request and a fresh id. */
  function NewBusiness(id: Id, req: BusinessRequest): Business {
    Business(id, req.name, req.address, req.latitude, req.longitude,
             req.category, req.phone, req.hours)
  }

  /** A stored record is filed under its own id (the table's primary key). */
  predicate WellKeyed(db: map<Id, Business>) {
    forall id | id in db :: db[id].id == id
  }

  type PrimaryStore = db: map<Id, Business> | WellKeyed(db) witness map[]

  type GeoIndex = map<Id, Point>

  datatype Stores = Stores(db: PrimaryStore, geo: GeoIndex)

  /** The geo-index is an exact projection of the primary store. */
  predicate Mirrors(s: Stores) {
    && s.geo.Keys == s.db.Keys
    && forall id | id in s.db :: s.geo[id] == Location(s.db[id])
  }

  /** One repository call that writes to a store. */
  datatype Effect =
    | DbSave(record: Business)
    | DbDelete(id: Id)
    | GeoAdd(member: Id, at: Point)
    | GeoRemove(member: Id)
    | GeoDeleteAll

  predicate TouchesIndex(e: Effect) {
    e.GeoAdd? || e.GeoRemove? || e.GeoDeleteAll?
  }

  /**
   * The store semantics of one write: save inserts or replaces by id,
   * GEOADD inserts or moves a member, ZREM of an absent member is a no-op,
   * and deleting the GEO key empties the index.
   */
  function Apply(s: Stores, e: Effect): Stores {
    match e
    case DbSave(b) => s.(db := s.db[b.id := b])
    case DbDelete(id) => s.(db := s.db - {id})
    case GeoAdd(id, p) => s.(geo := s.geo[id := p])
    case GeoRemove(id) => s.(geo := s.geo - {id})
    case GeoDeleteAll => s.(geo := map[])
  }

  /** The stores after a trace of writes, applied in order. */
  function ApplyAll(s: Stores, es: seq<Effect>): Stores
    decreases |es|
  {
    if es == [] then s else Apply(ApplyAll(s, es[..|es| - 1]), es[|es| - 1])
  }

  /** Applying two traces one after the other is applying their concatenation. */
  lemma {:induction false} ApplyAllAppend(s: Stores, a: seq<Effect>, b: seq<Effect>)
    ensures ApplyAll(s, a + b) == ApplyAll(ApplyAll(s, a), b)
    decreases |b|
  {
    if b == [] {
      assert a + b == a;
    } else {
      var b' := b[..|b| - 1];
      assert (a + b)[..|a + b| - 1] == a + b';
      ApplyAllAppend(s, a, b');
    }
  }

  lemma ApplyOne(s: Stores, a: Effect)
    ensures ApplyAll(s, [a]) == Apply(s, a)
  {
    assert [a][..0] == [];
  }

  lemma ApplyTwo(s: Stores, a: Effect, b: Effect)
    ensures ApplyAll(s, [a, b]) == Apply(Apply(s, a), b)
  {
    assert [a, b][..1] == [a];
    ApplyOne(s, a);
  }

  lemma ApplyThree(s: Stores, a: Effect, b: Effect, c: Effect)
    ensures ApplyAll(s, [a, b, c]) == Apply(Apply(Apply(s, a), b), c)
  {
    assert [a, b, c][..2] == [a, b];
    ApplyTwo(s, a, b);
  }

  /** A trace without index writes leaves the geo-index as it was. */
  lemma {:induction false} IndexUntouched(s: Stores, es: seq<Effect>)
    requires forall i | 0 <= i < |es| :: !TouchesIndex(es[i])
    ensures ApplyAll(s, es).geo == s.geo
    decreases |es|
  {
    if es != [] {
      IndexUntouched(s, es[..|es| - 1]);
    }
  }
}
