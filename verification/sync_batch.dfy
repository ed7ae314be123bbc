/**
 * The two batch jobs that repair the geo-index from the primary store.
 * Both scan the table in pages of 500 records and share one running flag,
 * so at most one job runs at a time; a job never throws once started, it
 * reports FAILED instead.  Every repository call that may throw is an
 * entry of `Faults`.
 */
module SyncBatch {
  import opened Common
  import opened Domain

  const ChunkSize: nat := 500
  const AlreadyRunningMessage := "A batch job is already running"

  datatype JobType = FullSyncJob | ConsistencyCheckJob

  datatype Status = Succeeded | PartialFailure | Failed

  /** The job report; start, end and duration times are not modelled. */
  datatype BatchResult = BatchResult(
    job: JobType,
    status: Status,
    totalProcessed: int,
    added: int,
    removed: int,
    errors: int)

  /** The exception thrown when a job is asked for while another one runs. */
  datatype BatchError = AlreadyRunning(message: string)

  /** Which repository calls throw during one run of a job. */
  datatype Faults = Faults(
    wipeFails: bool,          // deleting the whole geo key
    pageFails: Option<nat>,   // fetching this page of the table
    membersFails: bool,       // listing the geo-index members
    lookupFails: set<Id>,     // looking these ids up by id
    addFails: set<Id>,        // adding these ids to the geo-index
    removeFails: set<Id>)     // removing these ids from the geo-index

  const NoFaults := Faults(false, None, false, {}, {}, {})

  // ---------------------------------------------------------------------
  // Paging

  /** After page `p`, the table has another page exactly when records remain. */
  predicate HasNext(n: nat, p: nat) {
    (p + 1) * ChunkSize < n
  }

  /** Page `p` is requested: page 0 always is, each later one only if records remain for it. */
  predicate Fetched(n: nat, p: nat) {
    p == 0 || p * ChunkSize < n
  }

  /** The scan of a table of `n` records hits a page whose fetch throws. */
  predicate ScanFails(n: nat, faults: Faults) {
    faults.pageFails.Some? && Fetched(n, faults.pageFails.value)
  }

  /** How many records the scan delivers before it ends or throws. */
  function Reached(n: nat, faults: Faults): (k: nat)
    ensures k <= n
    ensures !ScanFails(n, faults) ==> k == n
    ensures ScanFails(n, faults) ==> k == faults.pageFails.value * ChunkSize && k % ChunkSize == 0
  {
    if ScanFails(n, faults) then faults.pageFails.value * ChunkSize else n
  }

  // ---------------------------------------------------------------------
  // Reference definitions

  /** The ids of the scanned records. */
  function IdsOf(rows: seq<Business>): set<Id>
    decreases |rows|
  {
    if rows == [] then {} else IdsOf(rows[..|rows| - 1]) + {rows[|rows| - 1].id}
  }

  /** The table the scan enumerates: each id to its (last) record. */
  function Table(rows: seq<Business>): (db: PrimaryStore)
    ensures db.Keys == IdsOf(rows)
    decreases |rows|
  {
    if rows == [] then map[]
    else
      var b := rows[|rows| - 1];
      Table(rows[..|rows| - 1])[b.id := b]
  }

  /** The index a full sync builds from an empty key: every record whose add does not throw, at its location. */
  function Rebuilt(rows: seq<Business>, fails: set<Id>): GeoIndex
    decreases |rows|
  {
    if rows == [] then map[]
    else
      var b := rows[|rows| - 1];
      var before := Rebuilt(rows[..|rows| - 1], fails);
      if b.id in fails then before else before[b.id := Location(b)]
  }

  /** How many of the scanned records' adds throw. */
  function FailedAdds(rows: seq<Business>, fails: set<Id>): (c: nat)
    ensures c <= |rows|
    decreases |rows|
  {
    if rows == [] then 0
    else FailedAdds(rows[..|rows| - 1], fails) + (if rows[|rows| - 1].id in fails then 1 else 0)
  }

  /** What becomes of one missing id during a consistency check. */
  datatype Fate = Restored | Skipped | Errored

  function MissingFate(id: Id, current: PrimaryStore, faults: Faults): Fate {
    if id in faults.lookupFails then Errored
    else if id !in current then Skipped
    else if id in faults.addFails then Errored
    else Restored
  }

  /** Table ids the index lacks. */
  function Missing(index: GeoIndex, rows: seq<Business>): set<Id> {
    IdsOf(rows) - index.Keys
  }

  /** Index members the table lacks. */
  function Orphaned(index: GeoIndex, rows: seq<Business>): set<Id> {
    index.Keys - IdsOf(rows)
  }

  /** The missing ids that end up re-added. */
  function AddedIds(missing: set<Id>, current: PrimaryStore, faults: Faults): (a: set<Id>)
    ensures a <= missing && a <= current.Keys
  {
    set id | id in missing && MissingFate(id, current, faults) == Restored
  }

  /** The missing ids whose lookup or add throws. */
  function ErroredIds(missing: set<Id>, current: PrimaryStore, faults: Faults): (e: set<Id>)
    ensures e <= missing && e !! AddedIds(missing, current, faults)
  {
    set id | id in missing && MissingFate(id, current, faults) == Errored
  }

  /** `index` with each id of `restored` added at its current record's location. */
  function Restore(index: GeoIndex, restored: set<Id>, current: PrimaryStore): GeoIndex
    requires restored <= current.Keys
  {
    map id | id in index.Keys + restored :: if id in restored then Location(current[id]) else index[id]
  }

  /** The index a consistency check leaves when neither the scan nor the member listing throws. */
  function Reconciled(index: GeoIndex, rows: seq<Business>, current: PrimaryStore, faults: Faults): GeoIndex {
    var added := AddedIds(Missing(index, rows), current, faults);
    Restore(index, added, current) - (Orphaned(index, rows) - faults.removeFails)
  }

  // ---------------------------------------------------------------------
  // What a full sync rebuilds

  /** Every scanned id is indexed except those whose add throws. */
  lemma {:induction false} RebuiltKeys(rows: seq<Business>, fails: set<Id>)
    ensures Rebuilt(rows, fails).Keys == IdsOf(rows) - fails
    decreases |rows|
  {
    if rows != [] {
      RebuiltKeys(rows[..|rows| - 1], fails);
    }
  }

  /** Each indexed id sits at the location of the record the table holds for it. */
  lemma {:induction false} RebuiltAgreesWithTable(rows: seq<Business>, fails: set<Id>)
    ensures forall id | id in Rebuilt(rows, fails) ::
              id in Table(rows) && Rebuilt(rows, fails)[id] == Location(Table(rows)[id])
    decreases |rows|
  {
    if rows != [] {
      var front := rows[..|rows| - 1];
      RebuiltAgreesWithTable(front, fails);
      RebuiltKeys(front, fails);
    }
  }

  /** A full sync without faults leaves the index an exact mirror of the table. */
  lemma FullSyncRestoresMirror(rows: seq<Business>)
    ensures Mirrors(Stores(Table(rows), Rebuilt(rows, {})))
  {
    RebuiltKeys(rows, {});
    RebuiltAgreesWithTable(rows, {});
  }

  // ---------------------------------------------------------------------
  // What a consistency check reconciles

  /**
   * The members after a check: those the table and the index share, the
   * missing ids re-added, and the orphans whose removal threw.
   */
  lemma ReconciledKeys(index: GeoIndex, rows: seq<Business>, current: PrimaryStore, faults: Faults)
    ensures Reconciled(index, rows, current, faults).Keys
            == (index.Keys * IdsOf(rows))
               + AddedIds(Missing(index, rows), current, faults)
               + (Orphaned(index, rows) * faults.removeFails)
  {
  }

  /**
   * Positions are not compared: a shared member keeps whatever point it had,
   * and a re-added one sits at its current record's location.
   */
  lemma ReconciledPositions(index: GeoIndex, rows: seq<Business>, current: PrimaryStore, faults: Faults, id: Id)
    ensures id in index && id in IdsOf(rows) ==> Reconciled(index, rows, current, faults)[id] == index[id]
    ensures id in AddedIds(Missing(index, rows), current, faults) ==>
              Reconciled(index, rows, current, faults)[id] == Location(current[id])
  {
  }

  /** Without faults, and with the table unchanged since the scan, the check restores the index's membership. */
  lemma CleanCheckMatchesTable(index: GeoIndex, rows: seq<Business>)
    ensures Reconciled(index, rows, Table(rows), NoFaults).Keys == IdsOf(rows)
  {
    var added := AddedIds(Missing(index, rows), Table(rows), NoFaults);
    assert added == Missing(index, rows);
    ReconciledKeys(index, rows, Table(rows), NoFaults);
  }

  /**
   * A missing id whose record is gone by the time it is looked up is
   * skipped: neither re-added nor counted, as added or as an error.
   */
  lemma VanishedRecordIsSkipped(index: GeoIndex, rows: seq<Business>, current: PrimaryStore, faults: Faults, id: Id)
    requires id in Missing(index, rows) && id !in current && id !in faults.lookupFails
    ensures id !in AddedIds(Missing(index, rows), current, faults)
    ensures id !in ErroredIds(Missing(index, rows), current, faults)
    ensures id !in Reconciled(index, rows, current, faults)
  {
  }

  /** Each missing id is counted at most once, as added or as an error. */
  lemma MissingTally(index: GeoIndex, rows: seq<Business>, current: PrimaryStore, faults: Faults)
    ensures var missing := Missing(index, rows);
            CheckReport(index, rows, current, faults).added + |ErroredIds(missing, current, faults)| <= |missing|
  {
    var missing := Missing(index, rows);
    var added := AddedIds(missing, current, faults);
    var errored := ErroredIds(missing, current, faults);
    CountDisjoint(added, errored);
    CountSubset(added + errored, missing);
  }

  /** Each orphan is counted exactly once, as removed or as an error. */
  lemma OrphanTally(index: GeoIndex, rows: seq<Business>, current: PrimaryStore, faults: Faults)
    ensures var orphaned := Orphaned(index, rows);
            CheckReport(index, rows, current, faults).removed + |orphaned * faults.removeFails| == |orphaned|
  {
    var orphaned := Orphaned(index, rows);
    CountDisjoint(orphaned - faults.removeFails, orphaned * faults.removeFails);
    assert orphaned == (orphaned - faults.removeFails) + (orphaned * faults.removeFails);
  }

  lemma CountDisjoint(a: set<Id>, b: set<Id>)
    requires a !! b
    ensures |a + b| == |a| + |b|
  {
    assert a * b == {};
  }

  lemma {:induction false} CountSubset(a: set<Id>, b: set<Id>)
    requires a <= b
    ensures |a| <= |b|
    decreases |b|
  {
    if a != {} {
      var x :| x in a;
      CountSubset(a - {x}, b - {x});
    }
  }

  /** A second check straight after a fault-free one finds nothing to add or remove and changes nothing. */
  lemma SecondCheckIsQuiet(index: GeoIndex, rows: seq<Business>, current: PrimaryStore)
    ensures var once := Reconciled(index, rows, current, NoFaults);
            && AddedIds(Missing(once, rows), current, NoFaults) == {}
            && Orphaned(once, rows) == {}
            && Reconciled(once, rows, current, NoFaults) == once
  {
    var once := Reconciled(index, rows, current, NoFaults);
    ReconciledKeys(index, rows, current, NoFaults);
    assert Orphaned(once, rows) == {};
    forall id | id in Missing(once, rows) ensures id !in current {
      assert MissingFate(id, current, NoFaults) != Restored;
    }
    assert AddedIds(Missing(once, rows), current, NoFaults) == {};
  }

  /** A check straight after a fault-free full sync of the same table has nothing to do. */
  lemma CheckAfterFullSyncIsQuiet(rows: seq<Business>, current: PrimaryStore)
    ensures Missing(Rebuilt(rows, {}), rows) == {}
    ensures Orphaned(Rebuilt(rows, {}), rows) == {}
    ensures Reconciled(Rebuilt(rows, {}), rows, current, NoFaults) == Rebuilt(rows, {})
  {
    RebuiltKeys(rows, {});
  }

  // ---------------------------------------------------------------------
  // Full sync

  /** The report of a full sync that delivered `rows` and then ended, or threw if `scanFailed`. */
  function FullSyncReport(rows: seq<Business>, fails: set<Id>, scanFailed: bool): BatchResult {
    var failed := FailedAdds(rows, fails);
    var status := if scanFailed then Failed else if failed > 0 then PartialFailure else Succeeded;
    BatchResult(FullSyncJob, status, |rows|, |rows| - failed, 0, failed + (if scanFailed then 1 else 0))
  }

  /** Indexing one more scanned record: its add either lands or counts as an error. */
  lemma SyncOneMore(rows: seq<Business>, j: nat, fails: set<Id>)
    requires j < |rows|
    ensures rows[..j + 1][..j] == rows[..j]
    ensures Rebuilt(rows[..j + 1], fails)
            == if rows[j].id in fails then Rebuilt(rows[..j], fails)
               else Rebuilt(rows[..j], fails)[rows[j].id := Location(rows[j])]
    ensures FailedAdds(rows[..j + 1], fails)
            == FailedAdds(rows[..j], fails) + (if rows[j].id in fails then 1 else 0)
  {
    assert rows[..j + 1][..j] == rows[..j];
  }

  /**
   * One fetched page of the rebuild: add each of `rows[start..end]` to the
   * index, counting a throwing add as an error and skipping it.
   */
  method SyncPage(rows: seq<Business>, start: nat, end: nat, geo: GeoIndex, added: int, errors: int, fails: set<Id>)
    returns (geo': GeoIndex, added': int, errors': int)
    requires start <= end <= |rows|
    requires geo == Rebuilt(rows[..start], fails)
    requires errors == FailedAdds(rows[..start], fails) && added == start - errors
    ensures geo' == Rebuilt(rows[..end], fails)
    ensures errors' == FailedAdds(rows[..end], fails) && added' == end - errors'
  {
    geo', added', errors' := geo, added, errors;
    var j := start;
    while j < end
      invariant start <= j <= end
      invariant geo' == Rebuilt(rows[..j], fails)
      invariant errors' == FailedAdds(rows[..j], fails)
      invariant added' == j - errors'
    {
      SyncOneMore(rows, j, fails);
      if rows[j].id in fails {
        errors' := errors' + 1;
      } else {
        geo' := geo'[rows[j].id := Location(rows[j])];
        added' := added' + 1;
      }
      j := j + 1;
    }
  }

  /**
   * `fullSync`.  Refused, with the flag left set, while another job runs.
   * Otherwise the key is wiped and rebuilt page by page from the scanned
   * records; a throwing add is counted and skipped, a throwing wipe or page
   * fetch ends the job as FAILED with the counts reached so far.  The flag
   * is always cleared at the end.
   */
  method FullSync(running: bool, index: GeoIndex, rows: seq<Business>, faults: Faults)
    returns (r: Result<BatchResult, BatchError>, index': GeoIndex, running': bool)
    ensures running ==> r == Failure(AlreadyRunning(AlreadyRunningMessage)) && index' == index && running'
    ensures !running ==> r.Success? && !running'
    ensures !running && faults.wipeFails ==>
              index' == index && r.value == BatchResult(FullSyncJob, Failed, 0, 0, 0, 1)
    ensures !running && !faults.wipeFails ==>
              var scanned := rows[..Reached(|rows|, faults)];
              && index' == Rebuilt(scanned, faults.addFails)
              && r.value == FullSyncReport(scanned, faults.addFails, ScanFails(|rows|, faults))
    ensures r.Success? && r.value.status != Failed ==>
              && r.value.totalProcessed == |rows|
              && r.value.added + r.value.errors == r.value.totalProcessed
              && r.value.removed == 0
    ensures r.Success? ==> (r.value.status == Succeeded <==> r.value.errors == 0)
    ensures r.Success? && r.value.status == Failed ==> r.value.errors >= 1
  {
    if running {
      return Failure(AlreadyRunning(AlreadyRunningMessage)), index, true;
    }
    if faults.wipeFails {
      return Success(BatchResult(FullSyncJob, Failed, 0, 0, 0, 1)), index, false;
    }
    var n := |rows|;
    var geo: GeoIndex := map[];
    var total, added, errors := 0, 0, 0;
    var page := 0;
    var more := true;
    var thrown := false;
    while more
      invariant 0 <= total <= n
      invariant more ==> total == page * ChunkSize && Fetched(n, page) && !thrown
      invariant more && faults.pageFails.Some? ==> page <= faults.pageFails.value
      invariant !more ==> total == Reached(n, faults) && thrown == ScanFails(n, faults)
      invariant geo == Rebuilt(rows[..total], faults.addFails)
      invariant errors == FailedAdds(rows[..total], faults.addFails)
      invariant added == total - errors
      decreases n - total + (if more then 1 else 0)
    {
      if faults.pageFails == Some(page) {
        thrown := true;
        more := false;
      } else {
        var end := if (page + 1) * ChunkSize < n then (page + 1) * ChunkSize else n;
        geo, added, errors := SyncPage(rows, total, end, geo, added, errors, faults.addFails);
        total := end;
        more := HasNext(n, page);
        page := page + 1;
      }
    }
    index' := geo;
    running' := false;
    var status := if thrown then Failed else if errors > 0 then PartialFailure else Succeeded;
    r := Success(BatchResult(FullSyncJob, status, total, added, 0, errors + (if thrown then 1 else 0)));
  }

  // ---------------------------------------------------------------------
  // Consistency check

  /** The report of a consistency check whose scan and member listing both succeed. */
  function CheckReport(index: GeoIndex, rows: seq<Business>, current: PrimaryStore, faults: Faults): BatchResult {
    var missing := Missing(index, rows);
    var orphaned := Orphaned(index, rows);
    var errors := |ErroredIds(missing, current, faults)| + |orphaned * faults.removeFails|;
    BatchResult(ConsistencyCheckJob,
                if errors > 0 then PartialFailure else Succeeded,
                |IdsOf(rows)| + |orphaned|,
                |AddedIds(missing, current, faults)|,
                |orphaned - faults.removeFails|,
                errors)
  }

  lemma ScanOneMore(rows: seq<Business>, j: nat)
    requires j < |rows|
    ensures rows[..j + 1][..j] == rows[..j]
    ensures IdsOf(rows[..j + 1]) == IdsOf(rows[..j]) + {rows[j].id}
  {
    assert rows[..j + 1][..j] == rows[..j];
  }

  /** The paged id scan: every scanned id, or None when a page fetch throws. */
  method ScanIds(rows: seq<Business>, faults: Faults) returns (ids: Option<set<Id>>)
    ensures ids.None? <==> ScanFails(|rows|, faults)
    ensures ids.Some? ==> ids.value == IdsOf(rows)
  {
    var n := |rows|;
    var seen: set<Id> := {};
    var total := 0;
    var page := 0;
    var more := true;
    var thrown := false;
    while more
      invariant 0 <= total <= n
      invariant more ==> total == page * ChunkSize && Fetched(n, page) && !thrown
      invariant more && faults.pageFails.Some? ==> page <= faults.pageFails.value
      invariant !more ==> thrown == ScanFails(n, faults) && (!thrown ==> total == n)
      invariant seen == IdsOf(rows[..total])
      decreases n - total + (if more then 1 else 0)
    {
      if faults.pageFails == Some(page) {
        thrown := true;
        more := false;
      } else {
        var end := if (page + 1) * ChunkSize < n then (page + 1) * ChunkSize else n;
        while total < end
          invariant total <= end
          invariant seen == IdsOf(rows[..total])
        {
          ScanOneMore(rows, total);
          seen := seen + {rows[total].id};
          total := total + 1;
        }
        more := HasNext(n, page);
        page := page + 1;
      }
    }
    if thrown {
      return None;
    }
    assert rows[..total] == rows;
    return Some(seen);
  }

  /** Restoring one more id is one more index write. */
  lemma RestoreOneMore(index: GeoIndex, done: set<Id>, id: Id, current: PrimaryStore)
    requires done <= current.Keys && id in current
    ensures Restore(index, done + {id}, current) == Restore(index, done, current)[id := Location(current[id])]
  {
  }

  /** Taking one more id off the work list: it joins the handled part of `s` exactly when it is in `s`. */
  lemma TakeOne(todo: set<Id>, id: Id, s: set<Id>)
    requires id in todo
    ensures s - (todo - {id}) == if id in s then (s - todo) + {id} else s - todo
    ensures |s - (todo - {id})| == |s - todo| + (if id in s then 1 else 0)
  {
    if id in s {
      assert s - (todo - {id}) == (s - todo) + {id};
    } else {
      assert s - (todo - {id}) == s - todo;
    }
  }

  /**
   * What the first repair loop has done once only `todo` is left: the ids
   * of `restored` already handled are back in the index, and the tallies
   * count the handled ids of `restored` and `errored`.
   */
  ghost predicate RestoredSoFar(index: GeoIndex, current: PrimaryStore, restored: set<Id>, errored: set<Id>,
                                todo: set<Id>, geo: GeoIndex, added: int, errors: int)
    requires restored <= current.Keys
  {
    && geo == Restore(index, restored - todo, current)
    && added == |restored - todo|
    && errors == |errored - todo|
  }

  /** Before the first turn nothing is handled. */
  lemma RestoreStart(index: GeoIndex, current: PrimaryStore, restored: set<Id>, errored: set<Id>, missing: set<Id>)
    requires restored <= missing && errored <= missing && restored <= current.Keys
    ensures RestoredSoFar(index, current, restored, errored, missing, index, 0, 0)
  {
    assert restored - missing == {} && errored - missing == {};
  }

  /** After the last turn everything is handled. */
  lemma RestoreEnd(index: GeoIndex, current: PrimaryStore, restored: set<Id>, errored: set<Id>,
                   geo: GeoIndex, added: int, errors: int)
    requires restored <= current.Keys
    requires RestoredSoFar(index, current, restored, errored, {}, geo, added, errors)
    ensures geo == Restore(index, restored, current) && added == |restored| && errors == |errored|
  {
    assert restored - {} == restored && errored - {} == errored;
  }

  /**
   * One turn of the first repair loop keeps its invariant: whatever the
   * visit did to the index and the tallies, it did for the id's fate.
   */
  lemma RestoreTurn(index: GeoIndex, current: PrimaryStore, faults: Faults, restored: set<Id>, errored: set<Id>,
                    todo: set<Id>, id: Id, geo: GeoIndex, added: int, errors: int,
                    geo': GeoIndex, a: int, e: int)
    requires restored <= current.Keys && id in todo
    requires id in restored <==> MissingFate(id, current, faults) == Restored
    requires id in errored <==> MissingFate(id, current, faults) == Errored
    requires RestoredSoFar(index, current, restored, errored, todo, geo, added, errors)
    requires MissingFate(id, current, faults) == Restored ==>
               geo' == geo[id := Location(current[id])] && a == 1 && e == 0
    requires MissingFate(id, current, faults) == Errored ==> geo' == geo && a == 0 && e == 1
    requires MissingFate(id, current, faults) == Skipped ==> geo' == geo && a == 0 && e == 0
    ensures RestoredSoFar(index, current, restored, errored, todo - {id}, geo', added + a, errors + e)
  {
    TakeOne(todo, id, restored);
    TakeOne(todo, id, errored);
    if id in restored {
      RestoreOneMore(index, restored - todo, id, current);
    }
  }

  /**
   * One turn of the first repair loop: look the missing id up and re-add it
   * at its record's location.  A throwing lookup or add counts one error;
   * an id whose record is gone is passed over.
   */
  method VisitMissing(geo: GeoIndex, id: Id, current: PrimaryStore, faults: Faults)
    returns (geo': GeoIndex, added: int, errors: int)
    ensures MissingFate(id, current, faults) == Restored ==>
              geo' == geo[id := Location(current[id])] && added == 1 && errors == 0
    ensures MissingFate(id, current, faults) == Errored ==> geo' == geo && added == 0 && errors == 1
    ensures MissingFate(id, current, faults) == Skipped ==> geo' == geo && added == 0 && errors == 0
  {
    geo', added, errors := geo, 0, 0;
    if id in faults.lookupFails {
      errors := 1;
    } else if id in current {
      var b := current[id];
      if b.id in faults.addFails {
        errors := 1;
      } else {
        geo' := geo[b.id := Location(b)];
        added := 1;
      }
    }
  }

  /**
   * The first repair loop over the missing ids; `restored` and `errored`
   * are the ids whose fate is to be re-added and to count as an error.
   */
  method RestoreLoop(index: GeoIndex, missing: set<Id>, current: PrimaryStore, faults: Faults,
                     ghost restored: set<Id>, ghost errored: set<Id>)
    returns (geo: GeoIndex, added: int, errors: int)
    requires restored <= missing && errored <= missing && restored <= current.Keys
    requires forall id {:trigger MissingFate(id, current, faults)} | id in missing ::
               id in restored <==> MissingFate(id, current, faults) == Restored
    requires forall id {:trigger MissingFate(id, current, faults)} | id in missing ::
               id in errored <==> MissingFate(id, current, faults) == Errored
    ensures geo == Restore(index, restored, current)
    ensures added == |restored|
    ensures errors == |errored|
  {
    geo := index;
    added, errors := 0, 0;
    var todo := missing;
    RestoreStart(index, current, restored, errored, missing);
    while todo != {}
      invariant todo <= missing
      invariant RestoredSoFar(index, current, restored, errored, todo, geo, added, errors)
      decreases |todo|
    {
      var id :| id in todo;
      var g, a, e := VisitMissing(geo, id, current, faults);
      RestoreTurn(index, current, faults, restored, errored, todo, id, geo, added, errors, g, a, e);
      geo, added, errors := g, added + a, errors + e;
      todo := todo - {id};
    }
    RestoreEnd(index, current, restored, errored, geo, added, errors);
  }

  /** The first repair loop's index and tallies, in terms of the missing ids' fates. */
  method RestoreMissing(index: GeoIndex, missing: set<Id>, current: PrimaryStore, faults: Faults)
    returns (geo: GeoIndex, added: int, errors: int)
    ensures geo == Restore(index, AddedIds(missing, current, faults), current)
    ensures added == |AddedIds(missing, current, faults)|
    ensures errors == |ErroredIds(missing, current, faults)|
  {
    geo, added, errors := RestoreLoop(index, missing, current, faults,
                                      AddedIds(missing, current, faults), ErroredIds(missing, current, faults));
  }

  /**
   * What the second repair loop has done once the orphans in `cleared` are
   * handled: those not refused are gone from the index and counted as
   * removed, the refused ones are counted as errors.
   */
  ghost predicate ClearedSoFar(index: GeoIndex, removeFails: set<Id>, cleared: set<Id>,
                               geo: GeoIndex, removed: int, errors: int)
  {
    && geo == index - (cleared - removeFails)
    && removed == |cleared - removeFails|
    && errors == |cleared * removeFails|
  }

  /** Handling one more orphan moves exactly one of the two tallies. */
  lemma RemoveStep(index: GeoIndex, removeFails: set<Id>, cleared: set<Id>, id: Id,
                   geo: GeoIndex, removed: int, errors: int)
    requires id !in cleared
    requires ClearedSoFar(index, removeFails, cleared, geo, removed, errors)
    ensures id in removeFails ==> ClearedSoFar(index, removeFails, cleared + {id}, geo, removed, errors + 1)
    ensures id !in removeFails ==> ClearedSoFar(index, removeFails, cleared + {id}, geo - {id}, removed + 1, errors)
  {
    if id in removeFails {
      assert (cleared + {id}) * removeFails == cleared * removeFails + {id};
      assert (cleared + {id}) - removeFails == cleared - removeFails;
    } else {
      assert (cleared + {id}) * removeFails == cleared * removeFails;
      assert (cleared + {id}) - removeFails == (cleared - removeFails) + {id};
    }
  }

  /** Before the first turn no orphan is handled. */
  lemma RemoveStart(index: GeoIndex, removeFails: set<Id>)
    ensures ClearedSoFar(index, removeFails, {}, index, 0, 0)
  {
    assert {} - removeFails == {} && {} * removeFails == {};
  }

  /** Splitting off one more orphan from the work list keeps the partition. */
  lemma Partition(orphaned: set<Id>, stale: set<Id>, cleared: set<Id>, id: Id)
    requires stale !! cleared && stale + cleared == orphaned && id in stale
    ensures id !in cleared
    ensures (stale - {id}) !! (cleared + {id}) && (stale - {id}) + (cleared + {id}) == orphaned
    ensures |stale - {id}| < |stale|
  {
  }

  /** The second repair loop: remove each orphan; a throwing removal is an error and leaves it. */
  method RemoveOrphans(index: GeoIndex, orphaned: set<Id>, removeFails: set<Id>)
    returns (geo: GeoIndex, removed: int, errors: int)
    ensures geo == index - (orphaned - removeFails)
    ensures removed == |orphaned - removeFails|
    ensures errors == |orphaned * removeFails|
  {
    geo := index;
    removed, errors := 0, 0;
    var stale := orphaned;
    ghost var cleared: set<Id> := {};
    RemoveStart(index, removeFails);
    while stale != {}
      invariant stale !! cleared && stale + cleared == orphaned
      invariant ClearedSoFar(index, removeFails, cleared, geo, removed, errors)
      decreases |stale|
    {
      var id :| id in stale;
      Partition(orphaned, stale, cleared, id);
      RemoveStep(index, removeFails, cleared, id, geo, removed, errors);
      if id in removeFails {
        errors := errors + 1;
      } else {
        geo := geo - {id};
        removed := removed + 1;
      }
      stale := stale - {id};
      cleared := cleared + {id};
    }
    assert cleared == orphaned;
  }

  /** A check's report says SUCCESS exactly when no call threw. */
  lemma CheckReportStatus(index: GeoIndex, rows: seq<Business>, current: PrimaryStore, faults: Faults)
    ensures var report := CheckReport(index, rows, current, faults);
            report.status == Succeeded <==> report.errors == 0
  {
  }

  /** The two repair loops over the scanned ids together make up the check's report and index. */
  lemma CheckAssembles(index: GeoIndex, rows: seq<Business>, current: PrimaryStore, faults: Faults,
                       restoredIndex: GeoIndex, added: int, addErrors: int,
                       geo: GeoIndex, removed: int, removeErrors: int)
    requires var missing := IdsOf(rows) - index.Keys;
             && restoredIndex == Restore(index, AddedIds(missing, current, faults), current)
             && added == |AddedIds(missing, current, faults)|
             && addErrors == |ErroredIds(missing, current, faults)|
    requires var orphaned := index.Keys - IdsOf(rows);
             && geo == restoredIndex - (orphaned - faults.removeFails)
             && removed == |orphaned - faults.removeFails|
             && removeErrors == |orphaned * faults.removeFails|
    ensures geo == Reconciled(index, rows, current, faults)
    ensures var errors := addErrors + removeErrors;
            BatchResult(ConsistencyCheckJob, if errors > 0 then PartialFailure else Succeeded,
                        |IdsOf(rows)| + |index.Keys - IdsOf(rows)|, added, removed, errors)
            == CheckReport(index, rows, current, faults)
  {
  }

  /**
   * `consistencyCheck`.  Refused, with the flag left set, while another job
   * runs.  Otherwise the table ids are compared with the index members:
   * each missing id is looked up and re-added, each orphan removed, a
   * throwing call counted and skipped; a throwing scan or member listing
   * ends the job as FAILED before anything is written.  The flag is always
   * cleared at the end.
   */
  method ConsistencyCheck(running: bool, index: GeoIndex, rows: seq<Business>, current: PrimaryStore, faults: Faults)
    returns (r: Result<BatchResult, BatchError>, index': GeoIndex, running': bool)
    ensures running ==> r == Failure(AlreadyRunning(AlreadyRunningMessage)) && index' == index && running'
    ensures !running ==> r.Success? && !running'
    ensures !running && (ScanFails(|rows|, faults) || faults.membersFails) ==>
              index' == index && r.value == BatchResult(ConsistencyCheckJob, Failed, 0, 0, 0, 1)
    ensures !running && !ScanFails(|rows|, faults) && !faults.membersFails ==>
              index' == Reconciled(index, rows, current, faults)
              && r.value == CheckReport(index, rows, current, faults)
    ensures r.Success? ==> (r.value.status == Succeeded <==> r.value.errors == 0)
  {
    if running {
      return Failure(AlreadyRunning(AlreadyRunningMessage)), index, true;
    }
    running' := false;
    var scanned := ScanIds(rows, faults);
    if scanned.None? || faults.membersFails {
      return Success(BatchResult(ConsistencyCheckJob, Failed, 0, 0, 0, 1)), index, false;
    }
    var tableIds := scanned.value;
    var missing := tableIds - index.Keys;
    var orphaned := index.Keys - tableIds;
    var restoredIndex, added, addErrors := RestoreMissing(index, missing, current, faults);
    var geo, removed, removeErrors := RemoveOrphans(restoredIndex, orphaned, faults.removeFails);
    var errors := addErrors + removeErrors;
    var status := if errors > 0 then PartialFailure else Succeeded;
    r := Success(BatchResult(ConsistencyCheckJob, status, |tableIds| + |orphaned|, added, removed, errors));
    index' := geo;
    CheckAssembles(index, rows, current, faults, restoredIndex, added, addErrors, geo, removed, removeErrors);
    CheckReportStatus(index, rows, current, faults);
  }

  // ---------------------------------------------------------------------
  // Convergence

  /**
   * Without faults, and with every missing record still stored, one check
   * re-adds every missing id and removes every orphan, with no errors.
   */
  lemma CleanCheckCounts(index: GeoIndex, rows: seq<Business>, current: PrimaryStore)
    requires Missing(index, rows) <= current.Keys
    ensures var report := CheckReport(index, rows, current, NoFaults);
            && report.status == Succeeded
            && report.added == |Missing(index, rows)|
            && report.removed == |Orphaned(index, rows)|
            && report.errors == 0
            && report.totalProcessed == |IdsOf(rows)| + |Orphaned(index, rows)|
  {
    var missing := Missing(index, rows);
    assert AddedIds(missing, current, NoFaults) == missing;
    assert ErroredIds(missing, current, NoFaults) == {};
  }

  /** The two differences of the scenario below. */
  lemma ScenarioDifferences(a: Business, b: Business, orphan: Id, pa: Point, po: Point)
    requires a.id != b.id && orphan != a.id && orphan != b.id
    ensures IdsOf([a, b]) == {a.id, b.id}
    ensures Missing(map[a.id := pa, orphan := po], [a, b]) == {b.id}
    ensures Orphaned(map[a.id := pa, orphan := po], [a, b]) == {orphan}
    ensures b.id in Table([a, b]) && Table([a, b])[b.id] == b
  {
    assert [a, b][..1] == [a] && [a][..0] == [];
    assert IdsOf([a]) == {a.id};
  }

  /** The index the scenario below ends with. */
  lemma ScenarioIndex(a: Business, b: Business, orphan: Id, pa: Point, po: Point)
    requires a.id != b.id && orphan != a.id && orphan != b.id
    ensures Reconciled(map[a.id := pa, orphan := po], [a, b], Table([a, b]), NoFaults)
            == map[a.id := pa, b.id := Location(b)]
  {
    var index := map[a.id := pa, orphan := po];
    var t := Table([a, b]);
    ScenarioDifferences(a, b, orphan, pa, po);
    assert AddedIds({b.id}, t, NoFaults) == {b.id};
    var restored := Restore(index, {b.id}, t);
    assert restored.Keys == {a.id, orphan, b.id};
    assert restored - {orphan} == map[a.id := pa, b.id := Location(b)];
  }

  /** The report of the scenario below. */
  lemma ScenarioReport(a: Business, b: Business, orphan: Id, pa: Point, po: Point)
    requires a.id != b.id && orphan != a.id && orphan != b.id
    ensures CheckReport(map[a.id := pa, orphan := po], [a, b], Table([a, b]), NoFaults)
            == BatchResult(ConsistencyCheckJob, Succeeded, 3, 1, 1, 0)
  {
    var index := map[a.id := pa, orphan := po];
    ScenarioDifferences(a, b, orphan, pa, po);
    CleanCheckCounts(index, [a, b], Table([a, b]));
  }

  /**
   * Index {a, orphan} against table [a, b]: one re-add, one removal,
   * three ids processed, and the index ends up exactly {a, b}.
   */
  lemma OrphanAndMissingScenario(a: Business, b: Business, orphan: Id, pa: Point, po: Point)
    requires a.id != b.id && orphan != a.id && orphan != b.id
    ensures var index := map[a.id := pa, orphan := po];
            var rows := [a, b];
            && Reconciled(index, rows, Table(rows), NoFaults) == map[a.id := pa, b.id := Location(b)]
            && CheckReport(index, rows, Table(rows), NoFaults)
               == BatchResult(ConsistencyCheckJob, Succeeded, 3, 1, 1, 0)
  {
    ScenarioIndex(a, b, orphan, pa, po);
    ScenarioReport(a, b, orphan, pa, po);
  }
}
