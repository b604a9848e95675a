/**
 * The server's parking-spot model: the status table and its inverse, the
 * status tests, the validations run before a spot is saved, the bounding-box
 * query, and the two hooks that delete reservations when a spot is saved or
 * destroyed.
 */
module Spots {
  import opened Wrappers

  /** An ordered hash from names to integer codes; a key is looked up at its first entry. */
  type Table = seq<(string, int)>

  /** The spot status hash, in its declared order. */
  const Status: Table := [("AVAILABLE", 1), ("RESERVED", 2), ("OCCUPIED", 3), ("UNAVAILABLE", 4)]

  /** Most records the bounding-box query returns. */
  const MaxSpotWithinRegion := 100

  ghost predicate UniqueKeys(t: Table)
  {
    forall i, j :: 0 <= i < j < |t| ==> t[i].0 != t[j].0
  }

  ghost predicate UniqueValues(t: Table)
  {
    forall i, j :: 0 <= i < j < |t| ==> t[i].1 != t[j].1
  }

  /** `t[key]`: the code of the first entry with that key, or nil. */
  function HashGet(t: Table, key: string): (r: Option<int>)
    ensures r.None? <==> forall i :: 0 <= i < |t| ==> t[i].0 != key
    ensures r.Some? ==> (key, r.value) in t
  {
    if t == [] then None
    else if t[0].0 == key then Some(t[0].1)
    else HashGet(t[1..], key)
  }

  /** `t.invert[value]`: the key of the last entry holding that code, or nil. */
  function InvertGet(t: Table, value: Option<int>): (r: Option<string>)
    ensures r.None? <==> value.None? || forall i :: 0 <= i < |t| ==> t[i].1 != value.value
    ensures r.Some? ==> value.Some? && (r.value, value.value) in t
  {
    if t == [] || value.None? then None
    else match InvertGet(t[1..], value)
      case Some(k) => Some(k)
      case None => if t[0].1 == value.value then Some(t[0].0) else None
  }

  /** A lookup yields the code of the first entry with the key. */
  lemma {:induction false} HashGetFirst(t: Table, key: string)
    requires HashGet(t, key).Some?
    ensures exists i :: 0 <= i < |t| && t[i] == (key, HashGet(t, key).value)
                        && forall j :: 0 <= j < i ==> t[j].0 != key
  {
    if t[0].0 != key {
      HashGetFirst(t[1..], key);
      var i :| 0 <= i < |t[1..]| && t[1..][i] == (key, HashGet(t, key).value)
               && forall j :: 0 <= j < i ==> t[1..][j].0 != key;
      assert t[i + 1] == (key, HashGet(t, key).value);
      assert forall j :: 0 <= j < i + 1 ==> t[j].0 != key by {
        forall j | 0 < j < i + 1 ensures t[j].0 != key { assert t[j] == t[1..][j - 1]; }
      }
    }
  }

  /** Inverting yields the key of the last entry holding the code, as `Hash#invert` keeps the last. */
  lemma {:induction false} InvertGetLast(t: Table, value: Option<int>)
    requires InvertGet(t, value).Some?
    ensures exists i :: 0 <= i < |t| && t[i] == (InvertGet(t, value).value, value.value)
                        && forall j :: i < j < |t| ==> t[j].1 != value.value
  {
    var k := InvertGet(t, value).value;
    if InvertGet(t[1..], value).Some? {
      InvertGetLast(t[1..], value);
      var i :| 0 <= i < |t[1..]| && t[1..][i] == (k, value.value)
               && forall j :: i < j < |t[1..]| ==> t[1..][j].1 != value.value;
      assert t[i + 1] == (k, value.value);
      forall j | i + 1 < j < |t| ensures t[j].1 != value.value { assert t[j] == t[1..][j - 1]; }
    } else {
      assert t[0] == (k, value.value);
      forall j | 0 < j < |t| ensures t[j].1 != value.value { assert t[j] == t[1..][j - 1]; }
    }
  }

  /** With distinct keys, looking up the key of an entry yields that entry's code. */
  lemma HashGetAt(t: Table, i: int)
    requires UniqueKeys(t) && 0 <= i < |t|
    ensures HashGet(t, t[i].0) == Some(t[i].1)
  {
  }

  /** With distinct codes, inverting the code of an entry yields that entry's key. */
  lemma InvertGetAt(t: Table, i: int)
    requires UniqueValues(t) && 0 <= i < |t|
    ensures InvertGet(t, Some(t[i].1)) == Some(t[i].0)
  {
  }

  /** `STATUS[name]`. */
  function StatusCode(name: string): (r: Option<int>)
    ensures r.Some? <==> name == "AVAILABLE" || name == "RESERVED" || name == "OCCUPIED" || name == "UNAVAILABLE"
  {
    HashGet(Status, name)
  }

  /** `Spot.spot_status(code)`: the status name of a code, or nil. */
  function SpotStatus(code: Option<int>): (r: Option<string>)
    ensures r.Some? ==> StatusCode(r.value) == code
  {
    InvertGet(Status, code)
  }

  /** The four names and their codes. */
  lemma StatusCodes()
    ensures StatusCode("AVAILABLE") == Some(1) && StatusCode("RESERVED") == Some(2)
    ensures StatusCode("OCCUPIED") == Some(3) && StatusCode("UNAVAILABLE") == Some(4)
  {
  }

  /** The status hash is injective, so inverting it undoes every lookup. */
  lemma StatusRoundTrip(name: string)
    requires StatusCode(name).Some?
    ensures SpotStatus(StatusCode(name)) == Some(name)
  {
  }

  /** A code names a status exactly when it is one of 1, 2, 3 and 4; nil names none. */
  lemma SpotStatusDefined(code: Option<int>)
    ensures SpotStatus(code).Some? <==> code.Some? && 1 <= code.value <= 4
  {
  }

  /** A spot as stored: every column may be nil. */
  datatype Spot = Spot(id: Option<int>, lotId: Option<int>, status: Option<int>,
                       latitude: Option<real>, longitude: Option<real>)

  /** `spot.status`: the name of the stored code. */
  function StatusName(s: Spot): (r: Option<string>)
    ensures r == Some("AVAILABLE") <==> IsAvailable(s)
    ensures r == Some("RESERVED") <==> IsReserved(s)
    ensures r == Some("OCCUPIED") <==> IsOccupied(s)
    ensures r == Some("UNAVAILABLE") <==> IsUnavailable(s)
  {
    SpotStatus(s.status)
  }

  predicate IsAvailable(s: Spot)
    ensures IsAvailable(s) <==> s.status == Some(1)
  {
    s.status == StatusCode("AVAILABLE")
  }

  predicate IsReserved(s: Spot)
    ensures IsReserved(s) <==> s.status == Some(2)
  {
    s.status == StatusCode("RESERVED")
  }

  predicate IsOccupied(s: Spot)
    ensures IsOccupied(s) <==> s.status == Some(3)
  {
    s.status == StatusCode("OCCUPIED")
  }

  predicate IsUnavailable(s: Spot)
    ensures IsUnavailable(s) <==> s.status == Some(4)
  {
    s.status == StatusCode("UNAVAILABLE")
  }

  /** No stored code satisfies two of the four status tests. */
  lemma StatusTestsExclusive(s: Spot)
    ensures !(IsAvailable(s) && IsReserved(s)) && !(IsAvailable(s) && IsOccupied(s))
    ensures !(IsAvailable(s) && IsUnavailable(s)) && !(IsReserved(s) && IsOccupied(s))
    ensures !(IsReserved(s) && IsUnavailable(s)) && !(IsOccupied(s) && IsUnavailable(s))
  {
  }

  /** Some status test holds exactly when the stored code is one of the four. */
  lemma StatusTestsCover(s: Spot)
    ensures IsAvailable(s) || IsReserved(s) || IsOccupied(s) || IsUnavailable(s)
            <==> s.status.Some? && 1 <= s.status.value <= 4
  {
  }

  /** The attributes a spot's validation errors are filed under. */
  datatype Attribute = LotId | StatusAttr | Latitude | Longitude

  /** The validation errors a spot can collect. */
  datatype SpotError =
    | IsInvalid(attribute: Attribute)
    | Blank(attribute: Attribute)
    | NotANumber(attribute: Attribute)
    | TooSmall(attribute: Attribute)
    | TooLarge(attribute: Attribute)

  /** `verify_lot`: the spot must name a lot that exists. */
  function VerifyLot(s: Spot, lots: set<int>): (errors: seq<SpotError>)
    ensures errors == [] <==> s.lotId.Some? && s.lotId.value in lots
  {
    if s.lotId.None? || s.lotId.value !in lots then [IsInvalid(LotId)] else []
  }

  /** `verify_status`: only an available or unavailable spot may be saved. */
  function VerifyStatus(s: Spot): (errors: seq<SpotError>)
    ensures |errors| <= 1
  {
    if StatusName(s) != Some("AVAILABLE") && StatusName(s) != Some("UNAVAILABLE")
    then [IsInvalid(StatusAttr)] else []
  }

  /** `verify_status` accepts codes 1 and 4 and refuses every other code, and nil. */
  lemma VerifyStatusAccepts(s: Spot)
    ensures VerifyStatus(s) == [] <==> s.status == Some(1) || s.status == Some(4)
  {
  }

  /** A reserved or an occupied spot can never be saved. */
  lemma ReservedAndOccupiedRejected(s: Spot)
    requires IsReserved(s) || IsOccupied(s)
    ensures VerifyStatus(s) != []
  {
  }

  /** A coordinate is present and lies within [-180, 180]. */
  predicate InRange(x: Option<real>)
  {
    x.Some? && -180.0 <= x.value <= 180.0
  }

  /**
   * The presence and numericality checks on one coordinate: nil is blank and
   * not a number; a number must lie within [-180, 180].
   */
  function ValidateCoordinate(attr: Attribute, x: Option<real>): (errors: seq<SpotError>)
    ensures errors == [] <==> InRange(x)
    ensures forall e :: e in errors ==> e.attribute == attr
  {
    match x
    case None => [Blank(attr), NotANumber(attr)]
    case Some(v) =>
      if v < -180.0 then [TooSmall(attr)]
      else if v > 180.0 then [TooLarge(attr)]
      else []
  }

  /** Every error the validations collect, in the order the validations are declared. */
  function Errors(s: Spot, lots: set<int>): (errors: seq<SpotError>)
    ensures errors == [] <==>
              s.lotId.Some? && s.lotId.value in lots
              && (s.status == Some(1) || s.status == Some(4))
              && InRange(s.latitude) && InRange(s.longitude)
  {
    VerifyStatusAccepts(s);
    VerifyLot(s, lots) + VerifyStatus(s)
      + ValidateCoordinate(Latitude, s.latitude) + ValidateCoordinate(Longitude, s.longitude)
  }

  /** The bounding box and optional lot of a within query. */
  datatype Region = Region(lotId: Option<int>, lat1: real, long1: real, lat2: real, long2: real)

  /** The where clause: inclusive bounds; a nil coordinate never matches. */
  predicate InRegion(s: Spot, q: Region)
    ensures InRegion(s, q) ==> q.lat1 <= q.lat2 && q.long1 <= q.long2
  {
    s.latitude.Some? && s.longitude.Some?
    && q.lat1 <= s.latitude.value <= q.lat2
    && q.long1 <= s.longitude.value <= q.long2
    && (q.lotId.Some? ==> s.lotId == q.lotId)
  }

  /** The spots of the table that the where clause selects, in table order. */
  function Matching(spots: seq<Spot>, q: Region): (r: seq<Spot>)
    ensures |r| <= |spots|
    ensures forall s :: s in r <==> s in spots && InRegion(s, q)
  {
    if spots == [] then []
    else if InRegion(spots[0], q) then [spots[0]] + Matching(spots[1..], q)
    else Matching(spots[1..], q)
  }

  /** The record the query returns for one spot. */
  datatype SpotRecord = SpotRecord(id: Option<int>, lotId: Option<int>, status: Option<string>,
                                   latitude: Option<real>, longitude: Option<real>)

  function ToRecord(s: Spot): (r: SpotRecord)
    ensures r.id == s.id && r.lotId == s.lotId
    ensures r.latitude == s.latitude && r.longitude == s.longitude
    ensures r.status == SpotStatus(s.status)
    ensures r.status.Some? <==> s.status.Some? && 1 <= s.status.value <= 4
  {
    SpotStatusDefined(s.status);
    SpotRecord(s.id, s.lotId, StatusName(s), s.latitude, s.longitude)
  }

  function Min(a: int, b: int): int
  {
    if a <= b then a else b
  }

  /** `Spot.within`: the first records selected by the region, at most the maximum. */
  function Within(spots: seq<Spot>, q: Region): (r: seq<SpotRecord>)
    ensures |r| == Min(|Matching(spots, q)|, MaxSpotWithinRegion)
    ensures forall i :: 0 <= i < |r| ==>
              r[i].latitude.Some? && q.lat1 <= r[i].latitude.value <= q.lat2
              && r[i].longitude.Some? && q.long1 <= r[i].longitude.value <= q.long2
              && (q.lotId.Some? ==> r[i].lotId == q.lotId)
    ensures forall i :: 0 <= i < |r| ==> exists s :: s in spots && InRegion(s, q) && r[i] == ToRecord(s)
    ensures forall i :: 0 <= i < |r| ==> r[i] == ToRecord(Matching(spots, q)[i])
  {
    var selected := Matching(spots, q);
    var n := Min(|selected|, MaxSpotWithinRegion);
    var r := seq(n, i requires 0 <= i < n => ToRecord(selected[i]));
    assert forall i :: 0 <= i < n ==> selected[i] in selected;
    assert forall i :: 0 <= i < n ==> selected[i] in spots && InRegion(selected[i], q);
    r
  }

  /** When the region selects at most the maximum, no selected spot is left out. */
  lemma WithinComplete(spots: seq<Spot>, q: Region, s: Spot)
    requires |Matching(spots, q)| <= MaxSpotWithinRegion
    requires s in spots && InRegion(s, q)
    ensures ToRecord(s) in Within(spots, q)
  {
  }

  /** A reservation row; its spot column may be nil. */
  datatype Reservation = Reservation(id: int, spotId: Option<int>)

  /** The rows that remain after deleting every reservation of one spot. */
  function WithoutSpot(rows: seq<Reservation>, spotId: int): (r: seq<Reservation>)
    ensures forall x :: x in r <==> x in rows && x.spotId != Some(spotId)
    ensures |r| <= |rows|
  {
    if rows == [] then []
    else if rows[0].spotId == Some(spotId) then WithoutSpot(rows[1..], spotId)
    else [rows[0]] + WithoutSpot(rows[1..], spotId)
  }

  /** Each row the region selects appears as often as in the table; no other row appears. */
  lemma {:induction false} MatchingCounts(spots: seq<Spot>, q: Region, s: Spot)
    ensures multiset(Matching(spots, q))[s] == if InRegion(s, q) then multiset(spots)[s] else 0
  {
    if spots != [] {
      MatchingCounts(spots[1..], q, s);
      assert spots == [spots[0]] + spots[1..];
    }
  }

  /** Rows of other spots keep their multiplicity; rows of this spot all go. */
  lemma {:induction false} WithoutSpotCounts(rows: seq<Reservation>, spotId: int, x: Reservation)
    ensures multiset(WithoutSpot(rows, spotId))[x] ==
              if x.spotId == Some(spotId) then 0 else multiset(rows)[x]
  {
    if rows != [] {
      WithoutSpotCounts(rows[1..], spotId, x);
      assert rows == [rows[0]] + rows[1..];
    }
  }

  /** `find_by_spot_id`: the position of the first row with that spot column, or nil. */
  function FindBySpotId(rows: seq<Reservation>, spotId: Option<int>): (r: Option<nat>)
    ensures r.Some? ==> r.value < |rows| && rows[r.value].spotId == spotId
                        && forall k :: 0 <= k < r.value ==> rows[k].spotId != spotId
    ensures r.None? <==> forall k :: 0 <= k < |rows| ==> rows[k].spotId != spotId
  {
    if rows == [] then None
    else if rows[0].spotId == spotId then Some(0)
    else match FindBySpotId(rows[1..], spotId)
      case None => None
      case Some(k) => Some(k + 1)
  }

  /** The rows that remain after deleting the row at position `i`. */
  function RemoveAt(rows: seq<Reservation>, i: nat): (r: seq<Reservation>)
    requires i < |rows|
    ensures |r| == |rows| - 1
    ensures multiset(r) + multiset{rows[i]} == multiset(rows)
  {
    assert rows == rows[..i] + [rows[i]] + rows[i + 1..];
    rows[..i] + rows[i + 1..]
  }

  /** `config_reservations` deletes only for a saved spot that is available or unavailable. */
  predicate ClearsOnSave(s: Spot)
    ensures ClearsOnSave(s) <==> s.id.Some? && (s.status == Some(1) || s.status == Some(4))
  {
    VerifyStatusAccepts(s);
    s.id.Some? && (StatusName(s) == Some("AVAILABLE") || StatusName(s) == Some("UNAVAILABLE"))
  }

  /**
   * Saving runs `config_reservations` only after the validations passed, and
   * the status validation already admits only the two statuses: a saved spot
   * that passes it (as every spot with no errors does) always has its
   * reservations deleted.
   */
  lemma ValidSavedSpotClears(s: Spot)
    requires VerifyStatus(s) == [] && s.id.Some?
    ensures ClearsOnSave(s)
  {
  }

  /** The reservation table the two hooks delete from. */
  class ReservationTable {
    var rows: seq<Reservation>

    constructor (rows: seq<Reservation>)
      ensures this.rows == rows
    {
      this.rows := rows;
    }

    /** The hook run before a spot is saved. */
    method ConfigReservations(s: Spot)
      modifies this
      ensures rows == if ClearsOnSave(s) then WithoutSpot(old(rows), s.id.value) else old(rows)
    {
      if ClearsOnSave(s) {
        rows := WithoutSpot(rows, s.id.value);
      }
    }

    /** The hook run before a spot is destroyed: deletes at most one reservation. */
    method RemoveReservations(s: Spot)
      modifies this
      ensures match FindBySpotId(old(rows), s.id)
              case None => rows == old(rows)
              case Some(i) => rows == RemoveAt(old(rows), i)
      ensures |old(rows)| - 1 <= |rows| <= |old(rows)|
    {
      var found := FindBySpotId(rows, s.id);
      if found.Some? {
        rows := RemoveAt(rows, found.value);
      }
    }
  }
}
