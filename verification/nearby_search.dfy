/**
 * Proximity search: ask the geo-index for the members within a radius,
 * nearest first, hydrate them from the primary store in one batch lookup,
 * and join the two, silently dropping index members that have no record.
 * The radius search itself is an oracle; distances are whole decimetres.
 */
module NearbySearch {
  import opened Common
  import opened Domain
  import Categories
  import BusinessService

  /** One member returned by the radius search, with its distance from the centre. */
  datatype GeoHit = GeoHit(id: Id, distance: nat)

  /** One entry of the response. */
  datatype SearchResult = SearchResult(
    id: Id,
    name: string,
    address: string,
    latitude: real,
    longitude: real,
    distance: nat,
    category: string)

  datatype NearbySearchResponse = NearbySearchResponse(
    total: int,
    businesses: seq<SearchResult>,
    message: Option<string>)

  /** The hint sent back when the radius holds no member at all. */
  const NoResultsHint := "검색 결과가 없습니다. 반경을 넓혀서 다시 검색해 보세요."

  /**
   * The radius search the geo-index answers: centre and radius in metres
   * to hits in ascending distance, or None where the client returns null.
   */
  type GeoSearch = (Point, int) -> Option<seq<GeoHit>>

  predicate SortedByDistance(hits: seq<GeoHit>) {
    forall i, j | 0 <= i < j < |hits| :: hits[i].distance <= hits[j].distance
  }

  /**
   * What a correct radius search over `geo` returns: every member within
   * `radius` metres of `center` exactly once, nearest first, each with its
   * distance under the metric `dist`.
   */
  ghost predicate IsRadiusSearch(geo: GeoIndex, dist: (Point, Point) -> nat,
                                 center: Point, radius: int, hits: seq<GeoHit>)
  {
    && (forall i | 0 <= i < |hits| ::
          && hits[i].id in geo
          && hits[i].distance == dist(center, geo[hits[i].id])
          && hits[i].distance <= 10 * radius)
    && (forall id | id in geo && dist(center, geo[id]) <= 10 * radius ::
          exists i :: 0 <= i < |hits| && hits[i].id == id)
    && (forall i, j | 0 <= i < j < |hits| :: hits[i].id != hits[j].id)
    && SortedByDistance(hits)
  }

  /** The ids the hydration lookup is given: every hit's id, in geo order. */
  function HitIds(hits: seq<GeoHit>): (ids: seq<Id>)
    ensures |ids| == |hits|
    ensures forall i | 0 <= i < |hits| :: ids[i] == hits[i].id
  {
    seq(|hits|, i requires 0 <= i < |hits| => hits[i].id)
  }

  /**
   * `findAllByIdIn` collected into a map by id: the stored records whose
   * id is among `ids`, each under its own id.
   */
  function Hydrate(db: PrimaryStore, ids: seq<Id>): (m: map<Id, Business>)
    ensures forall id :: id in m <==> id in ids && id in db
    ensures forall id | id in m :: m[id] == db[id] && m[id].id == id
  {
    map id | id in db && id in ids :: db[id]
  }

  /** The hits whose id is in `found`, in their original order. */
  function Kept(hits: seq<GeoHit>, found: set<Id>): (r: seq<GeoHit>)
    ensures |r| <= |hits|
    ensures forall i | 0 <= i < |r| :: r[i].id in found
  {
    if hits == [] then []
    else (if hits[0].id in found then [hits[0]] else []) + Kept(hits[1..], found)
  }

  /** A response entry: every field from the record except the distance, which is the hit's. */
  function ResultOf(b: Business, distance: nat): SearchResult {
    SearchResult(b.id, b.name, b.address, b.latitude, b.longitude, distance, b.category)
  }

  /** The id and distance each entry of a response carries. */
  function HitsOf(rs: seq<SearchResult>): (hits: seq<GeoHit>)
    ensures |hits| == |rs|
    ensures forall i | 0 <= i < |rs| :: hits[i] == GeoHit(rs[i].id, rs[i].distance)
  {
    seq(|rs|, i requires 0 <= i < |rs| => GeoHit(rs[i].id, rs[i].distance))
  }

  /** The entry describes the stored record `b`. */
  predicate Describes(r: SearchResult, b: Business) {
    && r.id == b.id && r.name == b.name && r.address == b.address
    && r.latitude == b.latitude && r.longitude == b.longitude && r.category == b.category
  }

  /**
   * `searchNearby`.  No hits (or a null answer) gives total 0, no entries
   * and the widen-the-radius hint.  Otherwise the entries are the hits that
   * have a record, in geo order, each carrying the record's fields and the
   * hit's distance; the total is their number and there is no message,
   * even when every hit was dropped.
   */
  function SearchNearby(db: PrimaryStore, geoSearch: GeoSearch,
                        latitude: real, longitude: real, radius: int): (r: NearbySearchResponse)
    ensures var hits := geoSearch(Point(longitude, latitude), radius);
            hits.None? || hits.value == [] ==>
              r == NearbySearchResponse(0, [], Some(NoResultsHint))
    ensures var hits := geoSearch(Point(longitude, latitude), radius);
            hits.Some? && hits.value != [] ==>
              && r.message.None?
              && r.total == |r.businesses| <= |hits.value|
              && HitsOf(r.businesses) == Kept(hits.value, db.Keys)
    ensures forall i | 0 <= i < |r.businesses| ::
              r.businesses[i].id in db && Describes(r.businesses[i], db[r.businesses[i].id])
  {
    var answer := geoSearch(Point(longitude, latitude), radius);
    if answer.None? || answer.value == [] then
      NearbySearchResponse(0, [], Some(NoResultsHint))
    else
      var hits := answer.value;
      var found := Hydrate(db, HitIds(hits));
      var kept := Kept(hits, found.Keys);
      var results := seq(|kept|, i requires 0 <= i < |kept| =>
                           ResultOf(found[kept[i].id], kept[i].distance));
      HydrationIsOneBatchLookup(db, hits);
      assert HitsOf(results) == kept;
      NearbySearchResponse(|results|, results, None)
  }

  // ---------------------------------------------------------------------
  // Properties of the join

  /** `Kept` only looks at ids that occur in the hits. */
  lemma {:induction false} KeptDependsOnHitIds(hits: seq<GeoHit>, a: set<Id>, b: set<Id>)
    requires forall i | 0 <= i < |hits| :: hits[i].id in a <==> hits[i].id in b
    ensures Kept(hits, a) == Kept(hits, b)
  {
    if hits != [] {
      KeptDependsOnHitIds(hits[1..], a, b);
    }
  }

  /**
   * Hydrating with one batch lookup of the hit ids keeps the same hits as
   * asking the whole primary store record by record.
   */
  lemma HydrationIsOneBatchLookup(db: PrimaryStore, hits: seq<GeoHit>)
    ensures Kept(hits, Hydrate(db, HitIds(hits)).Keys) == Kept(hits, db.Keys)
  {
    assert forall i | 0 <= i < |hits| :: hits[i].id in HitIds(hits);
    KeptDependsOnHitIds(hits, Hydrate(db, HitIds(hits)).Keys, db.Keys);
  }

  /** `a` can be obtained from `b` by deleting elements. */
  predicate IsSubsequence<T(==)>(a: seq<T>, b: seq<T>)
    decreases |b|
  {
    if a == [] then true
    else if b == [] then false
    else if a[0] == b[0] then IsSubsequence(a[1..], b[1..])
    else IsSubsequence(a, b[1..])
  }

  lemma {:induction false} KeptIsSubsequence(hits: seq<GeoHit>, found: set<Id>)
    ensures IsSubsequence(Kept(hits, found), hits)
  {
    if hits != [] {
      var rest := Kept(hits[1..], found);
      KeptIsSubsequence(hits[1..], found);
      if hits[0].id in found {
        assert Kept(hits, found) == [hits[0]] + rest;
        assert ([hits[0]] + rest)[1..] == rest;
      } else {
        assert Kept(hits, found) == rest;
        if rest != [] {
          assert rest[0].id in found;
        }
      }
    }
  }

  /** Whatever holds of every hit holds of every hit that is kept. */
  lemma {:induction false} KeptInherits(hits: seq<GeoHit>, found: set<Id>, P: GeoHit -> bool)
    requires forall i | 0 <= i < |hits| :: P(hits[i])
    ensures forall i | 0 <= i < |Kept(hits, found)| :: P(Kept(hits, found)[i])
  {
    if hits != [] {
      var rest := Kept(hits[1..], found);
      KeptInherits(hits[1..], found, P);
      if hits[0].id in found {
        assert Kept(hits, found) == [hits[0]] + rest;
      } else {
        assert Kept(hits, found) == rest;
      }
    }
  }

  lemma {:induction false} KeptStaysSorted(hits: seq<GeoHit>, found: set<Id>)
    requires SortedByDistance(hits)
    ensures SortedByDistance(Kept(hits, found))
  {
    if hits != [] {
      var tail := hits[1..];
      var rest := Kept(tail, found);
      KeptStaysSorted(tail, found);
      if hits[0].id in found {
        var d := hits[0].distance;
        KeptInherits(tail, found, (h: GeoHit) => d <= h.distance);
        var r := [hits[0]] + rest;
        assert Kept(hits, found) == r;
        forall i, j | 0 <= i < j < |r| ensures r[i].distance <= r[j].distance {
          assert r[j] == rest[j - 1];
          if i > 0 {
            assert r[i] == rest[i - 1];
          }
        }
      } else {
        assert Kept(hits, found) == rest;
      }
    }
  }

  /** A hit whose id is in `found` is kept. */
  lemma {:induction false} KeptFind(hits: seq<GeoHit>, found: set<Id>, j: nat)
    requires j < |hits| && hits[j].id in found
    ensures exists i :: 0 <= i < |Kept(hits, found)| && Kept(hits, found)[i] == hits[j]
  {
    var tail := hits[1..];
    var rest := Kept(tail, found);
    var r := if hits[0].id in found then [hits[0]] + rest else rest;
    assert Kept(hits, found) == r;
    if j > 0 {
      KeptFind(tail, found, j - 1);
      var i :| 0 <= i < |rest| && rest[i] == tail[j - 1];
      if r != rest {
        assert r[i + 1] == rest[i];
      }
    } else {
      assert r[0] == hits[0];
    }
  }

  /** An id survives the filter exactly when it is in `found` and among the hits. */
  lemma KeptMembership(hits: seq<GeoHit>, found: set<Id>, id: Id)
    ensures (exists i :: 0 <= i < |Kept(hits, found)| && Kept(hits, found)[i].id == id)
            <==> (id in found && exists j :: 0 <= j < |hits| && hits[j].id == id)
  {
    var kept := Kept(hits, found);
    if exists i :: 0 <= i < |kept| && kept[i].id == id {
      var i :| 0 <= i < |kept| && kept[i].id == id;
      KeptInherits(hits, found, (x: GeoHit) => x in hits);
      assert kept[i] in hits;
    }
    if id in found && exists j :: 0 <= j < |hits| && hits[j].id == id {
      var j :| 0 <= j < |hits| && hits[j].id == id;
      KeptFind(hits, found, j);
    }
  }

  /**
   * The response lists the hits that have a record in the order the index
   * gave them: its ids and distances form a subsequence of the hits, so
   * there are never more entries than hits.
   */
  lemma SearchKeepsGeoOrder(db: PrimaryStore, geoSearch: GeoSearch,
                            latitude: real, longitude: real, radius: int)
    requires geoSearch(Point(longitude, latitude), radius).Some?
    ensures var r := SearchNearby(db, geoSearch, latitude, longitude, radius);
            IsSubsequence(HitsOf(r.businesses), geoSearch(Point(longitude, latitude), radius).value)
  {
    var hits := geoSearch(Point(longitude, latitude), radius).value;
    if hits != [] {
      KeptIsSubsequence(hits, db.Keys);
    }
  }

  /** Ascending distance order of the hits carries over to the response. */
  lemma SearchKeepsDistanceOrder(db: PrimaryStore, geoSearch: GeoSearch,
                                 latitude: real, longitude: real, radius: int)
    requires geoSearch(Point(longitude, latitude), radius).Some?
    requires SortedByDistance(geoSearch(Point(longitude, latitude), radius).value)
    ensures var r := SearchNearby(db, geoSearch, latitude, longitude, radius);
            forall i, j | 0 <= i < j < |r.businesses| ::
              r.businesses[i].distance <= r.businesses[j].distance
  {
    var hits := geoSearch(Point(longitude, latitude), radius).value;
    var r := SearchNearby(db, geoSearch, latitude, longitude, radius);
    if hits != [] {
      KeptStaysSorted(hits, db.Keys);
      var h := HitsOf(r.businesses);
      forall i, j | 0 <= i < j < |r.businesses|
        ensures r.businesses[i].distance <= r.businesses[j].distance
      {
        assert h[i].distance <= h[j].distance;
      }
    }
  }

  /**
   * An id is in the response exactly when the index returned it and the
   * primary store holds its record: orphans are dropped, nothing else is.
   */
  lemma SearchDropsExactlyOrphans(db: PrimaryStore, geoSearch: GeoSearch,
                                  latitude: real, longitude: real, radius: int, id: Id)
    requires geoSearch(Point(longitude, latitude), radius).Some?
    ensures var r := SearchNearby(db, geoSearch, latitude, longitude, radius);
            var hits := geoSearch(Point(longitude, latitude), radius).value;
            (exists i :: 0 <= i < |r.businesses| && r.businesses[i].id == id)
            <==> (id in db && exists j :: 0 <= j < |hits| && hits[j].id == id)
  {
    var r := SearchNearby(db, geoSearch, latitude, longitude, radius);
    var hits := geoSearch(Point(longitude, latitude), radius).value;
    if hits != [] {
      var h := HitsOf(r.businesses);
      var kept := Kept(hits, db.Keys);
      assert h == kept;
      assert forall i | 0 <= i < |r.businesses| :: r.businesses[i].id == kept[i].id;
      KeptMembership(hits, db.Keys, id);
    }
  }

  /**
   * Given a correct radius search, every entry of the response is both
   * indexed and stored, and lies within the radius.
   */
  lemma SearchReturnsIndexedStoredRecords(db: PrimaryStore, geo: GeoIndex, dist: (Point, Point) -> nat,
                                          geoSearch: GeoSearch, latitude: real, longitude: real, radius: int)
    requires geoSearch(Point(longitude, latitude), radius).Some?
    requires IsRadiusSearch(geo, dist, Point(longitude, latitude), radius,
                            geoSearch(Point(longitude, latitude), radius).value)
    ensures var r := SearchNearby(db, geoSearch, latitude, longitude, radius);
            forall i | 0 <= i < |r.businesses| ::
              && r.businesses[i].id in db
              && r.businesses[i].id in geo
              && r.businesses[i].distance <= 10 * radius
  {
    var r := SearchNearby(db, geoSearch, latitude, longitude, radius);
    var hits := geoSearch(Point(longitude, latitude), radius).value;
    if hits != [] {
      var h := HitsOf(r.businesses);
      KeptInherits(hits, db.Keys, (x: GeoHit) => x.id in geo && x.distance <= 10 * radius);
      assert h == Kept(hits, db.Keys);
      forall i | 0 <= i < |r.businesses|
        ensures r.businesses[i].id in geo && r.businesses[i].distance <= 10 * radius
      {
        assert h[i] == Kept(hits, db.Keys)[i];
      }
    }
  }

  /**
   * Given a correct radius search, every member within the radius that has
   * a record is in the response, described by that record and carrying its
   * distance from the centre.
   */
  lemma SearchFindsEveryStoredMember(db: PrimaryStore, geo: GeoIndex, dist: (Point, Point) -> nat,
                                     geoSearch: GeoSearch, latitude: real, longitude: real, radius: int, id: Id)
    requires geoSearch(Point(longitude, latitude), radius).Some?
    requires IsRadiusSearch(geo, dist, Point(longitude, latitude), radius,
                            geoSearch(Point(longitude, latitude), radius).value)
    requires id in db && id in geo && dist(Point(longitude, latitude), geo[id]) <= 10 * radius
    ensures var r := SearchNearby(db, geoSearch, latitude, longitude, radius);
            exists i :: 0 <= i < |r.businesses| &&
              r.businesses[i] == ResultOf(db[id], dist(Point(longitude, latitude), geo[id]))
  {
    var center := Point(longitude, latitude);
    var hits := geoSearch(center, radius).value;
    var r := SearchNearby(db, geoSearch, latitude, longitude, radius);
    var j :| 0 <= j < |hits| && hits[j].id == id;
    var kept := Kept(hits, db.Keys);
    KeptFind(hits, db.Keys, j);
    var i :| 0 <= i < |kept| && kept[i] == hits[j];
    assert HitsOf(r.businesses)[i] == kept[i];
    assert Describes(r.businesses[i], db[id]);
  }

  // ---------------------------------------------------------------------
  // Search after the lifecycle writes

  /**
   * A business created within the radius of a correct search is found,
   * with the fields it was created with and its distance from the centre.
   */
  lemma CreateThenSearchFinds(s: Stores, req: BusinessRequest, freshId: Id,
                              dist: (Point, Point) -> nat, geoSearch: GeoSearch,
                              latitude: real, longitude: real, radius: int)
    requires Categories.IsCategory(req.category)
    requires var after := ApplyAll(s, BusinessService.Create(req, freshId).effects);
             var answer := geoSearch(Point(longitude, latitude), radius);
             answer.Some? && IsRadiusSearch(after.geo, dist, Point(longitude, latitude), radius, answer.value)
    requires dist(Point(longitude, latitude), Point(req.longitude, req.latitude)) <= 10 * radius
    ensures var after := ApplyAll(s, BusinessService.Create(req, freshId).effects);
            var r := SearchNearby(after.db, geoSearch, latitude, longitude, radius);
            exists i :: 0 <= i < |r.businesses| &&
              r.businesses[i] == ResultOf(NewBusiness(freshId, req),
                                          dist(Point(longitude, latitude), Point(req.longitude, req.latitude)))
  {
    BusinessService.CreateEffect(s, req, freshId);
    var after := ApplyAll(s, BusinessService.Create(req, freshId).effects);
    SearchFindsEveryStoredMember(after.db, after.geo, dist, geoSearch, latitude, longitude, radius, freshId);
  }

  /** Once deleted, a business is never in a search response, whatever the index still holds. */
  lemma DeleteThenSearchNeverShows(s: Stores, id: Id, geoSearch: GeoSearch,
                                   latitude: real, longitude: real, radius: int)
    requires id in s.db
    ensures var after := ApplyAll(s, BusinessService.Delete(s.db, id).effects);
            var r := SearchNearby(after.db, geoSearch, latitude, longitude, radius);
            forall i | 0 <= i < |r.businesses| :: r.businesses[i].id != id
  {
    BusinessService.DeleteEffect(s, id);
  }
}
