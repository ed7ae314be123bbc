/**
 * Bulk seeding: for each request, build a record under a fresh id, save
 * it to the primary store, then add it to the geo-index.  Unlike create,
 * seeding checks no category.  `ids` are the answers of the fresh-id
 * generator, one per record built.
 */
module BusinessSeed {
  import opened Domain

  /** The two writes seeding issues for one request: the row, then the index member. */
  function SeedWrites(id: Id, req: BusinessRequest): seq<Effect> {
    [DbSave(NewBusiness(id, req)), GeoAdd(id, Point(req.longitude, req.latitude))]
  }

  /** The writes of a whole seeding run, request by request. */
  function SeedTrace(ids: seq<Id>, requests: seq<BusinessRequest>): seq<Effect>
    requires |ids| == |requests|
    decreases |ids|
  {
    if ids == [] then []
    else
      var n := |ids| - 1;
      SeedTrace(ids[..n], requests[..n]) + SeedWrites(ids[n], requests[n])
  }

  /**
   * Request `i` contributes entries `2i` and `2i + 1` of the trace: its row
   * is saved first, verbatim (its category unchecked), then its id is
   * added to the index at its (longitude, latitude).
   */
  lemma {:induction false} SeedTraceOrder(ids: seq<Id>, requests: seq<BusinessRequest>)
    requires |ids| == |requests|
    ensures |SeedTrace(ids, requests)| == 2 * |requests|
    ensures forall i | 0 <= i < |requests| ::
              && SeedTrace(ids, requests)[2 * i] == DbSave(NewBusiness(ids[i], requests[i]))
              && SeedTrace(ids, requests)[2 * i + 1]
                 == GeoAdd(ids[i], Point(requests[i].longitude, requests[i].latitude))
    decreases |ids|
  {
    if ids != [] {
      var n := |ids| - 1;
      SeedTraceOrder(ids[..n], requests[..n]);
      var t := SeedTrace(ids, requests);
      var t' := SeedTrace(ids[..n], requests[..n]);
      forall i | 0 <= i < |requests|
        ensures && t[2 * i] == DbSave(NewBusiness(ids[i], requests[i]))
                && t[2 * i + 1] == GeoAdd(ids[i], Point(requests[i].longitude, requests[i].latitude))
      {
        if i < n {
          assert ids[..n][i] == ids[i] && requests[..n][i] == requests[i];
          assert t[2 * i] == t'[2 * i] && t[2 * i + 1] == t'[2 * i + 1];
        }
      }
    }
  }

  /** The key sets of both stores after the first `i` requests of a run. */
  predicate SeededKeys(s: Stores, ids: seq<Id>, requests: seq<BusinessRequest>, i: nat)
    requires |ids| == |requests| && i <= |ids|
  {
    var after := ApplyAll(s, SeedTrace(ids[..i], requests[..i]));
    && after.db.Keys == s.db.Keys + IdSet(ids[..i])
    && after.geo.Keys == s.geo.Keys + IdSet(ids[..i])
  }

  /** The trace of the first `i + 1` requests extends that of the first `i` by request `i`'s writes. */
  lemma SeedTraceExtends(ids: seq<Id>, requests: seq<BusinessRequest>, i: nat)
    requires |ids| == |requests| && i < |ids|
    ensures SeedTrace(ids[..i + 1], requests[..i + 1])
            == SeedTrace(ids[..i], requests[..i]) + SeedWrites(ids[i], requests[i])
  {
    assert ids[..i + 1][..i] == ids[..i];
    assert requests[..i + 1][..i] == requests[..i];
  }

  /** The id set of the first `i + 1` ids adds id `i` to that of the first `i`. */
  lemma IdSetExtends(ids: seq<Id>, i: nat)
    requires i < |ids|
    ensures IdSet(ids[..i + 1]) == IdSet(ids[..i]) + {ids[i]}
  {
    assert ids[..i + 1][..i] == ids[..i];
  }

  /** Seeding request `i` adds exactly its id to both key sets. */
  lemma SeedStep(s: Stores, ids: seq<Id>, requests: seq<BusinessRequest>, i: nat)
    requires |ids| == |requests| && i < |ids|
    requires SeededKeys(s, ids, requests, i)
    ensures SeededKeys(s, ids, requests, i + 1)
  {
    var es := SeedTrace(ids[..i], requests[..i]);
    var w := SeedWrites(ids[i], requests[i]);
    SeedTraceExtends(ids, requests, i);
    IdSetExtends(ids, i);
    ApplyAllAppend(s, es, w);
    ApplyTwo(ApplyAll(s, es), w[0], w[1]);
  }

  /** Before the first request nothing is written. */
  lemma SeedStart(s: Stores, ids: seq<Id>, requests: seq<BusinessRequest>)
    requires |ids| == |requests|
    ensures SeedTrace(ids[..0], requests[..0]) == []
    ensures SeededKeys(s, ids, requests, 0)
  {
    assert ids[..0] == [] && requests[..0] == [];
  }

  /** After the last request the prefixes are the whole input. */
  lemma SeedEnd(s: Stores, ids: seq<Id>, requests: seq<BusinessRequest>)
    requires |ids| == |requests|
    requires SeededKeys(s, ids, requests, |ids|)
    ensures SeedTrace(ids[..|ids|], requests[..|ids|]) == SeedTrace(ids, requests)
    ensures ApplyAll(s, SeedTrace(ids, requests)).db.Keys == s.db.Keys + IdSet(ids)
    ensures ApplyAll(s, SeedTrace(ids, requests)).geo.Keys == s.geo.Keys + IdSet(ids)
  {
    assert ids[..|ids|] == ids && requests[..|ids|] == requests;
  }

  /**
   * `seed`: one record per request, each saved before it is indexed; the
   * count is the number of requests, and each store's key set grows by
   * exactly the fresh ids.
   */
  method Seed(s: Stores, requests: seq<BusinessRequest>, ids: seq<Id>)
    returns (count: int, effects: seq<Effect>, after: Stores)
    requires |ids| == |requests|
    ensures count == |requests|
    ensures effects == SeedTrace(ids, requests)
    ensures after == ApplyAll(s, effects)
    ensures after.db.Keys == s.db.Keys + IdSet(ids)
    ensures after.geo.Keys == s.geo.Keys + IdSet(ids)
  {
    count := 0;
    effects := [];
    var i := 0;
    SeedStart(s, ids, requests);
    while i < |requests|
      invariant 0 <= i <= |requests|
      invariant count == i
      invariant effects == SeedTrace(ids[..i], requests[..i])
      invariant SeededKeys(s, ids, requests, i)
    {
      SeedStep(s, ids, requests, i);
      SeedTraceExtends(ids, requests, i);
      effects := effects + SeedWrites(ids[i], requests[i]);
      count := count + 1;
      i := i + 1;
    }
    SeedEnd(s, ids, requests);
    after := ApplyAll(s, effects);
  }
}
