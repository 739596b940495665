/** Entities shared by the villa listing and the villa quote: villas, calendar
    rows, the date arguments of a request, the two error kinds, and the
    half-open stay that both operations validate the same way. */
module Domain {

  datatype Option<T> = None | Some(value: T) {
    function GetOr(default: T): T {
      match this
      case Some(v) => v
      case None => default
    }
  }

  /** The errors the service raises; each carries the message the service throws. */
  datatype Error = DatesRequired | InvalidDateFormat | CheckOutNotAfterCheckIn | VillaNotFound

  function Message(e: Error): string {
    match e
    case DatesRequired => "check_in and check_out are required"
    case InvalidDateFormat => "Invalid date format"
    case CheckOutNotAfterCheckIn => "check_out must be after check_in"
    case VillaNotFound => "villa_id not found"
  }

  /** The thrown messages tell the errors apart: a caller that sees only the
      message knows which check failed. */
  lemma MessagesDistinct(a: Error, b: Error)
    ensures Message(a) == Message(b) <==> a == b
  {
  }

  datatype Result<T> = Ok(value: T) | Err(error: Error)

  type VillaId = nat

  /** A villa document. The base price is optional: the villa schema declares no
      such path, so a stored villa usually has none. */
  datatype Villa = Villa(id: VillaId, name: string, location: string, basePrice: Option<nat>)

  /** One calendar document: the rate and availability of one villa on one day.
      Days are whole day numbers; the schema keeps the rate non-negative. */
  datatype CalendarRow = CalendarRow(villaId: VillaId, date: int, isAvailable: bool, rate: nat)

  /** A non-empty date argument of a request: whether it parses as a date, and
      the day it denotes when it does. An absent or empty argument is None. */
  datatype DateArg = DateArg(valid: bool, day: int)

  /** One row of a listing. nights and subtotal are null (None) in the undated listing. */
  datatype Summary = Summary(id: VillaId, name: string, location: string,
                             nights: Option<nat>, subtotal: Option<nat>, avgPricePerNight: nat)

  /** The elements of s that satisfy p, in their order in s. */
  function Filter<T(!new)>(s: seq<T>, p: T -> bool): (r: seq<T>)
    ensures |r| <= |s|
    ensures forall x :: x in r <==> x in s && p(x)
  {
    if s == [] then []
    else Filter(s[..|s| - 1], p) + (if p(s[|s| - 1]) then [s[|s| - 1]] else [])
  }

  lemma FilterSnoc<T(!new)>(s: seq<T>, x: T, p: T -> bool)
    ensures Filter(s + [x], p) == Filter(s, p) + (if p(x) then [x] else [])
  {
    assert (s + [x])[..|s|] == s;
  }

  lemma {:induction false} FilterNone<T(!new)>(s: seq<T>, p: T -> bool)
    requires forall x :: x in s ==> !p(x)
    ensures Filter(s, p) == []
  {
    if s != [] {
      FilterNone(s[..|s| - 1], p);
    }
  }

  lemma {:induction false} FilterAll<T(!new)>(s: seq<T>, p: T -> bool)
    requires forall x :: x in s ==> p(x)
    ensures Filter(s, p) == s
  {
    if s != [] {
      FilterAll(s[..|s| - 1], p);
      assert s == s[..|s| - 1] + [s[|s| - 1]];
    }
  }

  /** The database keeps at most one calendar row per (villa, date) pair. */
  ghost predicate UniquePerVillaAndDate(rows: seq<CalendarRow>) {
    forall i, j :: 0 <= i < j < |rows| ==>
      rows[i].villaId != rows[j].villaId || rows[i].date != rows[j].date
  }

  /** Villa ids are primary keys. */
  ghost predicate DistinctIds(villas: seq<Villa>) {
    forall i, j :: 0 <= i < j < |villas| ==> villas[i].id != villas[j].id
  }

  lemma FilterKeepsUnique(rows: seq<CalendarRow>, p: CalendarRow -> bool)
    requires UniquePerVillaAndDate(rows)
    ensures UniquePerVillaAndDate(Filter(rows, p))
  {
    if rows != [] {
      var init, last := rows[..|rows| - 1], rows[|rows| - 1];
      assert rows == init + [last];
      assert UniquePerVillaAndDate(init);
      FilterKeepsUnique(init, p);
      var f := Filter(init, p);
      forall y | y in f ensures y.villaId != last.villaId || y.date != last.date {
        var k :| 0 <= k < |init| && init[k] == y;
        assert rows[k] == y;
      }
      FilterSnoc(init, last, p);
      if p(last) {
        UniqueSnoc(f, last);
      }
    }
  }

  lemma UniqueSnoc(rows: seq<CalendarRow>, x: CalendarRow)
    requires UniquePerVillaAndDate(rows)
    requires forall y :: y in rows ==> y.villaId != x.villaId || y.date != x.date
    ensures UniquePerVillaAndDate(rows + [x])
  {
    forall i, j | 0 <= i < j < |rows| + 1
      ensures (rows + [x])[i].villaId != (rows + [x])[j].villaId || (rows + [x])[i].date != (rows + [x])[j].date
    {
      if j == |rows| {
        assert rows[i] in rows;
      }
    }
  }

  /** The date condition of the calendar queries: the half-open stay [checkIn, checkOut). */
  function DuringStay(checkIn: int, checkOut: int): CalendarRow -> bool {
    (r: CalendarRow) => checkIn <= r.date < checkOut
  }

  /** The calendar query of the listing: every row whose date lies in the stay. */
  function RowsInRange(rows: seq<CalendarRow>, checkIn: int, checkOut: int): (r: seq<CalendarRow>)
    ensures forall row :: row in r <==> row in rows && checkIn <= row.date < checkOut
  {
    Filter(rows, DuringStay(checkIn, checkOut))
  }

  /** The location filter of the villa queries: an empty or absent location filters nothing. */
  predicate LocationMatches(location: Option<string>, v: Villa) {
    location.None? || location.value == "" || v.location == location.value
  }

  /** Villa lookup by primary key. */
  function FindById(villas: seq<Villa>, id: VillaId): (r: Option<Villa>)
    ensures r.Some? ==> r.value in villas && r.value.id == id
    ensures r.None? ==> forall v :: v in villas ==> v.id != id
  {
    if villas == [] then None
    else if villas[0].id == id then Some(villas[0])
    else FindById(villas[1..], id)
  }

  /** Validation of a supplied date pair, shared by both operations: both dates
      must parse, and the number of nights (the day difference) must be positive. */
  function CheckStay(checkIn: DateArg, checkOut: DateArg): (r: Result<nat>)
    ensures !checkIn.valid || !checkOut.valid ==> r == Err(InvalidDateFormat)
    ensures checkIn.valid && checkOut.valid && checkOut.day <= checkIn.day ==> r == Err(CheckOutNotAfterCheckIn)
    ensures r.Ok? <==> checkIn.valid && checkOut.valid && checkIn.day < checkOut.day
    ensures r.Ok? ==> r.value > 0 && checkIn.day + r.value == checkOut.day
  {
    if !checkIn.valid || !checkOut.valid then Err(InvalidDateFormat)
    else
      var nights := checkOut.day - checkIn.day;
      if nights <= 0 then Err(CheckOutNotAfterCheckIn) else Ok(nights)
  }
}
