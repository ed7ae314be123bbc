/**
 * The record lifecycle: create, read, update and delete a business.  Each
 * operation checks its inputs first, then writes the primary store, then
 * the geo-index; it returns its answer together with the writes it made,
 * in the order it made them.  Index writes issued here are plain calls:
 * the lifecycle methods reach `syncGeoAdd`/`syncGeoRemove` on the object
 * itself, so the retry policy is modelled on those two methods alone.
 */
module BusinessService {
  import opened Common
  import opened Domain
  import Categories
  import Retry

  datatype ServiceError = InvalidCategory(message: string) | NotFound(id: Id)

  /** An answer and the store writes issued to produce it, in call order. */
  datatype Step<T> = Step(result: Result<T, ServiceError>, effects: seq<Effect>)

  /** The category check that opens create and update. */
  function CheckCategory(category: string): (r: Option<ServiceError>)
    ensures r.None? <==> Categories.IsCategory(category)
    ensures r.Some? ==> r.value == InvalidCategory(Categories.InvalidMessage(category))
  {
    match Categories.FromValue(category)
    case Success(_) => None
    case Failure(message) => Some(InvalidCategory(message))
  }

  /**
   * `create`: reject an unknown category before anything else; otherwise
   * save a new record under the fresh id, then add that id at
   * (longitude, latitude) to the index.
   */
  function Create(req: BusinessRequest, freshId: Id): (r: Step<Business>)
    ensures r.result.Success? <==> Categories.IsCategory(req.category)
    ensures r.result.Failure? ==> r.result.error.InvalidCategory? && r.effects == []
    ensures r.result.Success? ==>
              var b := r.result.value;
              && b.id == freshId
              && b.name == req.name && b.address == req.address
              && b.latitude == req.latitude && b.longitude == req.longitude
              && b.category == req.category && b.phone == req.phone && b.hours == req.hours
              && r.effects == [DbSave(b), GeoAdd(freshId, Point(req.longitude, req.latitude))]
  {
    match CheckCategory(req.category)
    case Some(e) => Step(Failure(e), [])
    case None =>
      var b := NewBusiness(freshId, req);
      Step(Success(b), [DbSave(b), GeoAdd(b.id, Location(b))])
  }

  /** `getById`: the stored record, or not-found. */
  function GetById(db: PrimaryStore, id: Id): (r: Result<Business, ServiceError>)
    ensures r.Success? <==> id in db
    ensures r.Success? ==> r.value == db[id] && r.value.id == id
    ensures r.Failure? ==> r.error == NotFound(id)
  {
    if id in db then Success(db[id]) else Failure(NotFound(id))
  }

  /** The coordinates of the request differ from the stored ones. */
  predicate CoordinatesChanged(b: Business, req: BusinessRequest) {
    b.latitude != req.latitude || b.longitude != req.longitude
  }

  /** The record with every mutable field taken from the request; the id stays. */
  function Revised(b: Business, req: BusinessRequest): Business {
    b.(name := req.name, address := req.address,
       latitude := req.latitude, longitude := req.longitude,
       category := req.category, phone := req.phone, hours := req.hours)
  }

  /**
   * `update`: the category check comes before the lookup, so a bad
   * category wins even for an unknown id.  The record is rewritten in
   * full; the index is touched only when the coordinates moved, and then
   * as a remove of the id followed by an add at the new point.
   */
  function Update(db: PrimaryStore, id: Id, req: BusinessRequest): (r: Step<Business>)
    ensures !Categories.IsCategory(req.category) ==>
              r.result.Failure? && r.result.error.InvalidCategory? && r.effects == []
    ensures Categories.IsCategory(req.category) && id !in db ==>
              r.result == Failure(NotFound(id)) && r.effects == []
    ensures Categories.IsCategory(req.category) && id in db ==>
              && r.result.Success?
              && var b := r.result.value;
              && b.id == id
              && b.name == req.name && b.address == req.address
              && b.latitude == req.latitude && b.longitude == req.longitude
              && b.category == req.category && b.phone == req.phone && b.hours == req.hours
              && |r.effects| >= 1 && r.effects[0] == DbSave(b)
              && (CoordinatesChanged(db[id], req) <==> |r.effects| > 1)
              && (CoordinatesChanged(db[id], req) ==>
                    r.effects[1..] == [GeoRemove(id), GeoAdd(id, Point(req.longitude, req.latitude))])
  {
    match CheckCategory(req.category)
    case Some(e) => Step(Failure(e), [])
    case None =>
      if id !in db then Step(Failure(NotFound(id)), [])
      else
        var current := db[id];
        var b := Revised(current, req);
        if CoordinatesChanged(current, req) then
          Step(Success(b), [DbSave(b), GeoRemove(b.id), GeoAdd(b.id, Location(b))])
        else
          Step(Success(b), [DbSave(b)])
  }

  /** `delete`: not-found for an absent id; otherwise drop the row, then the index member. */
  function Delete(db: PrimaryStore, id: Id): (r: Step<()>)
    ensures id !in db ==> r == Step(Failure(NotFound(id)), [])
    ensures id in db ==> r == Step(Success(()), [DbDelete(id), GeoRemove(id)])
  {
    if id !in db then Step(Failure(NotFound(id)), [])
    else
      var b := db[id];
      Step(Success(()), [DbDelete(b.id), GeoRemove(b.id)])
  }

  // ---------------------------------------------------------------------
  // The store after each operation

  lemma CreateEffect(s: Stores, req: BusinessRequest, freshId: Id)
    requires Create(req, freshId).result.Success?
    ensures var b := Create(req, freshId).result.value;
            var after := ApplyAll(s, Create(req, freshId).effects);
            && after.db == s.db[freshId := b]
            && after.geo == s.geo[freshId := Point(req.longitude, req.latitude)]
  {
    var r := Create(req, freshId);
    var b := r.result.value;
    ApplyTwo(s, DbSave(b), GeoAdd(freshId, Point(req.longitude, req.latitude)));
  }

  /** A rejected create writes nothing. */
  lemma CreateRejectedWritesNothing(s: Stores, req: BusinessRequest, freshId: Id)
    requires !Categories.IsCategory(req.category)
    ensures ApplyAll(s, Create(req, freshId).effects) == s
  {
  }

  /** With a fresh id, create grows both stores by exactly that id and keeps them mirrored. */
  lemma CreateKeepsMirror(s: Stores, req: BusinessRequest, freshId: Id)
    requires Mirrors(s) && freshId !in s.db
    requires Categories.IsCategory(req.category)
    ensures var after := ApplyAll(s, Create(req, freshId).effects);
            && Mirrors(after)
            && after.db.Keys == s.db.Keys + {freshId}
            && after.geo.Keys == s.geo.Keys + {freshId}
  {
    CreateEffect(s, req, freshId);
  }

  /** Reading a created record back gives the record create returned. */
  lemma GetAfterCreate(s: Stores, req: BusinessRequest, freshId: Id)
    requires Create(req, freshId).result.Success?
    ensures GetById(ApplyAll(s, Create(req, freshId).effects).db, freshId)
            == Success(Create(req, freshId).result.value)
  {
    CreateEffect(s, req, freshId);
  }

  lemma UpdateEffect(s: Stores, id: Id, req: BusinessRequest)
    requires Update(s.db, id, req).result.Success?
    ensures var b := Update(s.db, id, req).result.value;
            var after := ApplyAll(s, Update(s.db, id, req).effects);
            && after.db == s.db[id := b]
            && (CoordinatesChanged(s.db[id], req) ==>
                  after.geo == s.geo[id := Point(req.longitude, req.latitude)])
            && (!CoordinatesChanged(s.db[id], req) ==> after.geo == s.geo)
  {
    var r := Update(s.db, id, req);
    var b := r.result.value;
    var p := Point(req.longitude, req.latitude);
    if CoordinatesChanged(s.db[id], req) {
      assert r.effects == [DbSave(b), GeoRemove(id), GeoAdd(id, p)];
      ApplyThree(s, DbSave(b), GeoRemove(id), GeoAdd(id, p));
      assert (s.geo - {id})[id := p] == s.geo[id := p];
    } else {
      assert r.effects == [DbSave(b)];
      ApplyOne(s, DbSave(b));
    }
  }

  /** An update that keeps the coordinates never touches the index. */
  lemma UpdateWithoutMoveKeepsIndex(s: Stores, id: Id, req: BusinessRequest)
    requires Categories.IsCategory(req.category) && id in s.db
    requires !CoordinatesChanged(s.db[id], req)
    ensures forall i | 0 <= i < |Update(s.db, id, req).effects| ::
              !TouchesIndex(Update(s.db, id, req).effects[i])
    ensures ApplyAll(s, Update(s.db, id, req).effects).geo == s.geo
  {
    UpdateEffect(s, id, req);
  }

  /** A move keeps the index key set and changes only the moved id's point. */
  lemma UpdateMoveShiftsOnePoint(s: Stores, id: Id, req: BusinessRequest)
    requires Categories.IsCategory(req.category) && id in s.db && id in s.geo
    requires CoordinatesChanged(s.db[id], req)
    ensures var after := ApplyAll(s, Update(s.db, id, req).effects);
            && after.geo.Keys == s.geo.Keys
            && after.geo[id] == Point(req.longitude, req.latitude)
            && forall other | other in s.geo && other != id :: after.geo[other] == s.geo[other]
  {
    UpdateEffect(s, id, req);
  }

  /** Update keeps mirrored stores mirrored, whether or not the point moved. */
  lemma UpdateKeepsMirror(s: Stores, id: Id, req: BusinessRequest)
    requires Mirrors(s)
    requires Update(s.db, id, req).result.Success?
    ensures Mirrors(ApplyAll(s, Update(s.db, id, req).effects))
  {
    UpdateEffect(s, id, req);
  }

  /** A rejected update, for a bad category or an unknown id, writes nothing. */
  lemma UpdateRejectedWritesNothing(s: Stores, id: Id, req: BusinessRequest)
    requires !Categories.IsCategory(req.category) || id !in s.db
    ensures Update(s.db, id, req).result.Failure?
    ensures ApplyAll(s, Update(s.db, id, req).effects) == s
  {
  }

  /** After delete the id is in neither store, and nothing else changed. */
  lemma DeleteEffect(s: Stores, id: Id)
    requires id in s.db
    ensures var after := ApplyAll(s, Delete(s.db, id).effects);
            && after.db == s.db - {id}
            && after.geo == s.geo - {id}
            && id !in after.db && id !in after.geo
  {
    ApplyTwo(s, DbDelete(id), GeoRemove(id));
  }

  lemma DeleteKeepsMirror(s: Stores, id: Id)
    requires Mirrors(s)
    ensures Mirrors(ApplyAll(s, Delete(s.db, id).effects))
  {
    if id in s.db {
      DeleteEffect(s, id);
    }
  }

  // ---------------------------------------------------------------------
  // The retried index writes

  /** What a recovery handler logs when the retries run out. */
  datatype FailureLog =
    | GeoAddFailed(id: Id, at: Point, fault: Retry.Fault)
    | GeoRemoveFailed(id: Id, fault: Retry.Fault)

  /** The index after a retried write, the run, and the log line if the write was given up. */
  datatype IndexSync = IndexSync(index: GeoIndex, run: Retry.Run, log: Option<FailureLog>)

  /**
   * `syncGeoAdd` under its retry policy.  The member is added exactly when
   * some attempt succeeds; exhausted transient faults are logged and
   * swallowed; any other fault escapes.
   */
  function SyncGeoAdd(geo: GeoIndex, id: Id, at: Point, store: nat -> Retry.Attempt): (r: IndexSync)
    ensures r.run == Retry.Execute(store)
    ensures r.run.outcome.Completed? ==> r.index == geo[id := at]
    ensures !r.run.outcome.Completed? ==> r.index == geo
    ensures r.log.Some? <==> r.run.outcome.Recovered?
    ensures r.run.outcome.Recovered? ==> r.log == Some(GeoAddFailed(id, at, r.run.outcome.fault))
  {
    var run := Retry.Execute(store);
    match run.outcome
    case Completed => IndexSync(geo[id := at], run, None)
    case Recovered(f) => IndexSync(geo, run, Some(GeoAddFailed(id, at, f)))
    case Rethrown(_) => IndexSync(geo, run, None)
  }

  /** `syncGeoRemove` under the same policy. */
  function SyncGeoRemove(geo: GeoIndex, id: Id, store: nat -> Retry.Attempt): (r: IndexSync)
    ensures r.run == Retry.Execute(store)
    ensures r.run.outcome.Completed? ==> r.index == geo - {id}
    ensures !r.run.outcome.Completed? ==> r.index == geo
    ensures r.log.Some? <==> r.run.outcome.Recovered?
    ensures r.run.outcome.Recovered? ==> r.log == Some(GeoRemoveFailed(id, r.run.outcome.fault))
  {
    var run := Retry.Execute(store);
    match run.outcome
    case Completed => IndexSync(geo - {id}, run, None)
    case Recovered(f) => IndexSync(geo, run, Some(GeoRemoveFailed(id, f)))
    case Rethrown(_) => IndexSync(geo, run, None)
  }

  /**
   * When every attempt fails transiently, the retried writes make three
   * attempts, leave the index as it was, log the failure and return
   * normally.
   */
  lemma ExhaustedSyncIsLoggedNotThrown(geo: GeoIndex, id: Id, at: Point, store: nat -> Retry.Attempt)
    requires forall j | 0 <= j < Retry.MaxAttempts :: store(j).Fail? && Retry.Retryable(store(j).fault)
    ensures var add := SyncGeoAdd(geo, id, at, store);
            add.index == geo && add.run.attempts == 3 && add.log == Some(GeoAddFailed(id, at, store(2).fault))
    ensures var remove := SyncGeoRemove(geo, id, store);
            remove.index == geo && remove.run.attempts == 3 && remove.log == Some(GeoRemoveFailed(id, store(2).fault))
  {
    Retry.ExhaustionRecovers(store);
  }
}
