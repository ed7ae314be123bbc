/**
 * The nearby-search endpoint: default the optional parameters, validate
 * all four in a fixed order (the first violation is the one reported),
 * then hand latitude, longitude and radius to the search.
 */
module NearbySearchController {
  import opened Common
  import opened Domain
  import NearbySearch

  const DefaultRadius: int := 5000
  const DefaultLimit: int := 20

  datatype Field = Limit | Latitude | Longitude | Radius

  /** The 400 answer: which parameter, the human message, its valid range and what was received. */
  datatype InvalidParameter = InvalidParameter(field: Field, message: string, validRange: string, received: real)

  /** The order in which the parameters are checked. */
  const CheckOrder: seq<Field> := [Limit, Latitude, Longitude, Radius]

  /** The inclusive bounds of each parameter. */
  function Low(f: Field): real {
    match f
    case Limit => 1.0
    case Latitude => -90.0
    case Longitude => -180.0
    case Radius => 1.0
  }

  function High(f: Field): real {
    match f
    case Limit => 50.0
    case Latitude => 90.0
    case Longitude => 180.0
    case Radius => 20000.0
  }

  function RangeText(f: Field): string {
    match f
    case Limit => "1 ~ 50"
    case Latitude => "-90 ~ 90"
    case Longitude => "-180 ~ 180"
    case Radius => "1 ~ 20000"
  }

  function Message(f: Field): string {
    match f
    case Limit => "결과 수 제한은 1에서 50 사이여야 합니다."
    case Latitude => "위도는 -90에서 90 사이여야 합니다."
    case Longitude => "경도는 -180에서 180 사이여야 합니다."
    case Radius => "검색 반경은 1에서 20000m 사이여야 합니다."
  }

  /** The value a request gives to parameter `f`. */
  function ValueOf(f: Field, latitude: real, longitude: real, radius: int, limit: int): real {
    match f
    case Limit => limit as real
    case Latitude => latitude
    case Longitude => longitude
    case Radius => radius as real
  }

  predicate InRange(f: Field, v: real) {
    Low(f) <= v <= High(f)
  }

  function Rejection(f: Field, v: real): InvalidParameter {
    InvalidParameter(f, Message(f), RangeText(f), v)
  }

  /**
   * `validateParameters`: limit, then latitude, then longitude, then
   * radius, each against its inclusive range.
   */
  function Validate(latitude: real, longitude: real, radius: int, limit: int): (r: Option<InvalidParameter>)
    ensures r.None? <==>
              && 1 <= limit <= 50
              && -90.0 <= latitude <= 90.0
              && -180.0 <= longitude <= 180.0
              && 1 <= radius <= 20000
    ensures !(1 <= limit <= 50) ==> r == Some(Rejection(Limit, limit as real))
    ensures 1 <= limit <= 50 && !(-90.0 <= latitude <= 90.0) ==>
              r == Some(Rejection(Latitude, latitude))
    ensures 1 <= limit <= 50 && -90.0 <= latitude <= 90.0 && !(-180.0 <= longitude <= 180.0) ==>
              r == Some(Rejection(Longitude, longitude))
    ensures 1 <= limit <= 50 && -90.0 <= latitude <= 90.0 && -180.0 <= longitude <= 180.0
            && !(1 <= radius <= 20000) ==>
              r == Some(Rejection(Radius, radius as real))
  {
    if limit < 1 || limit > 50 then Some(Rejection(Limit, limit as real))
    else if latitude < -90.0 || latitude > 90.0 then Some(Rejection(Latitude, latitude))
    else if longitude < -180.0 || longitude > 180.0 then Some(Rejection(Longitude, longitude))
    else if radius < 1 || radius > 20000 then Some(Rejection(Radius, radius as real))
    else None
  }

  /**
   * The reported parameter is the first one, in check order, whose value
   * is out of range; it reports that value; and a request is accepted
   * exactly when every parameter is in range.
   */
  lemma ValidateReportsFirstViolation(latitude: real, longitude: real, radius: int, limit: int)
    ensures var r := Validate(latitude, longitude, radius, limit);
            r.None? <==> forall k | 0 <= k < |CheckOrder| ::
                           InRange(CheckOrder[k], ValueOf(CheckOrder[k], latitude, longitude, radius, limit))
    ensures var r := Validate(latitude, longitude, radius, limit);
            r.Some? ==> exists k :: (
              && 0 <= k < |CheckOrder| && CheckOrder[k] == r.value.field
              && r.value == Rejection(CheckOrder[k], ValueOf(CheckOrder[k], latitude, longitude, radius, limit))
              && !InRange(CheckOrder[k], r.value.received)
              && forall e | 0 <= e < k ::
                   InRange(CheckOrder[e], ValueOf(CheckOrder[e], latitude, longitude, radius, limit)))
  {
    var r := Validate(latitude, longitude, radius, limit);
    if r.Some? {
      var k := if r.value.field == Limit then 0
               else if r.value.field == Latitude then 1
               else if r.value.field == Longitude then 2
               else 3;
      assert CheckOrder[k] == r.value.field;
    }
  }

  /** Both ends of every range are accepted; one step beyond either end is not. */
  lemma BoundsAreInclusive()
    ensures Validate(-90.0, -180.0, 1, 1).None?
    ensures Validate(90.0, 180.0, 20000, 50).None?
    ensures Validate(0.0, 0.0, 5000, 0) == Some(Rejection(Limit, 0.0))
    ensures Validate(0.0, 0.0, 5000, 51) == Some(Rejection(Limit, 51.0))
    ensures Validate(90.001, 0.0, 5000, 20) == Some(Rejection(Latitude, 90.001))
    ensures Validate(0.0, -180.001, 5000, 20) == Some(Rejection(Longitude, -180.001))
    ensures Validate(0.0, 0.0, 0, 20) == Some(Rejection(Radius, 0.0))
    ensures Validate(0.0, 0.0, 20001, 20) == Some(Rejection(Radius, 20001.0))
  {
  }

  /**
   * `searchNearby` on the controller: absent radius and limit take their
   * defaults; a valid request is answered by the search over latitude,
   * longitude and radius.
   */
  function HandleNearby(db: PrimaryStore, geoSearch: NearbySearch.GeoSearch, latitude: real, longitude: real,
                        radius: Option<int>, limit: Option<int>): (r: Result<NearbySearch.NearbySearchResponse, InvalidParameter>)
    ensures var rad := if radius.Some? then radius.value else DefaultRadius;
            var lim := if limit.Some? then limit.value else DefaultLimit;
            && (r.Failure? <==> Validate(latitude, longitude, rad, lim).Some?)
            && (r.Failure? ==> r.error == Validate(latitude, longitude, rad, lim).value)
            && (r.Success? ==> r.value == NearbySearch.SearchNearby(db, geoSearch, latitude, longitude, rad))
  {
    var rad := if radius.Some? then radius.value else DefaultRadius;
    var lim := if limit.Some? then limit.value else DefaultLimit;
    match Validate(latitude, longitude, rad, lim)
    case Some(e) => Failure(e)
    case None => Success(NearbySearch.SearchNearby(db, geoSearch, latitude, longitude, rad))
  }

  /** With valid coordinates, a request that names neither radius nor limit is accepted. */
  lemma DefaultsAreAccepted(db: PrimaryStore, geoSearch: NearbySearch.GeoSearch, latitude: real, longitude: real)
    requires -90.0 <= latitude <= 90.0 && -180.0 <= longitude <= 180.0
    ensures HandleNearby(db, geoSearch, latitude, longitude, None, None)
            == Success(NearbySearch.SearchNearby(db, geoSearch, latitude, longitude, 5000))
  {
  }

  /** Any valid limit gives the same answer: the limit is checked but never reaches the search. */
  lemma LimitDoesNotShapeTheAnswer(db: PrimaryStore, geoSearch: NearbySearch.GeoSearch, latitude: real,
                                   longitude: real, radius: Option<int>, a: int, b: int)
    requires 1 <= a <= 50 && 1 <= b <= 50
    ensures HandleNearby(db, geoSearch, latitude, longitude, radius, Some(a))
            == HandleNearby(db, geoSearch, latitude, longitude, radius, Some(b))
  {
  }
}
