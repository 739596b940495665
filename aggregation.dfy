/** The grouping step of the dated listing: calendar rows in the stay are
    tallied per villa (nights seen, rate subtotal, availability so far), and a
    villa is bookable when its tally covers every night and stayed available. */
module Aggregation {
  import opened Domain

  /** The running tally kept per villa while the rows are scanned. */
  datatype Tally = Tally(nights: nat, subtotal: nat, isAvailable: bool)

  /** One iteration of the grouping loop: a villa seen for the first time starts
      at no nights, zero subtotal and available. */
  function Record(m: map<VillaId, Tally>, row: CalendarRow): map<VillaId, Tally> {
    var t := if row.villaId in m then m[row.villaId] else Tally(0, 0, true);
    m[row.villaId := Tally(t.nights + 1, t.subtotal + row.rate, t.isAvailable && row.isAvailable)]
  }

  /** The tallies after the loop has seen every row of rows, in order. */
  function TallyOf(rows: seq<CalendarRow>): map<VillaId, Tally> {
    if rows == [] then map[] else Record(TallyOf(rows[..|rows| - 1]), rows[|rows| - 1])
  }

  /** The grouping loop over the calendar rows of the stay. */
  method GroupByVilla(rows: seq<CalendarRow>) returns (villaMap: map<VillaId, Tally>)
    ensures villaMap == TallyOf(rows)
  {
    villaMap := map[];
    for i := 0 to |rows|
      invariant villaMap == TallyOf(rows[..i])
    {
      var row := rows[i];
      var id := row.villaId;
      if id !in villaMap {
        villaMap := villaMap[id := Tally(0, 0, true)];
      }
      if !row.isAvailable {
        villaMap := villaMap[id := villaMap[id].(isAvailable := false)];
      }
      var t := villaMap[id];
      villaMap := villaMap[id := t.(nights := t.nights + 1, subtotal := t.subtotal + row.rate)];
      assert rows[..i + 1][..i] == rows[..i];
    }
    assert rows[..|rows|] == rows;
  }

  function OfVilla(id: VillaId): CalendarRow -> bool {
    (r: CalendarRow) => r.villaId == id
  }

  /** The rows of one villa, in order. */
  function RowsOf(rows: seq<CalendarRow>, id: VillaId): (r: seq<CalendarRow>)
    ensures forall row :: row in r <==> row in rows && row.villaId == id
  {
    Filter(rows, OfVilla(id))
  }

  lemma RowsOfSnoc(rows: seq<CalendarRow>, row: CalendarRow, id: VillaId)
    ensures RowsOf(rows + [row], id) == RowsOf(rows, id) + (if row.villaId == id then [row] else [])
  {
    FilterSnoc(rows, row, OfVilla(id));
  }

  function SumRates(rows: seq<CalendarRow>): nat {
    if rows == [] then 0 else SumRates(rows[..|rows| - 1]) + rows[|rows| - 1].rate
  }

  lemma SumRatesSnoc(rows: seq<CalendarRow>, row: CalendarRow)
    ensures SumRates(rows + [row]) == SumRates(rows) + row.rate
  {
    assert (rows + [row])[..|rows|] == rows;
  }

  predicate AllAvailable(rows: seq<CalendarRow>) {
    forall r :: r in rows ==> r.isAvailable
  }

  /** After the loop, a villa has a tally exactly when it has a row, and its
      tally counts its rows, sums their rates, and is available exactly when
      none of its rows is unavailable. */
  lemma {:induction false} TallyOfCounts(rows: seq<CalendarRow>, id: VillaId)
    ensures id in TallyOf(rows) <==> RowsOf(rows, id) != []
    ensures id in TallyOf(rows) ==>
      TallyOf(rows)[id] == Tally(|RowsOf(rows, id)|, SumRates(RowsOf(rows, id)), AllAvailable(RowsOf(rows, id)))
  {
    if rows != [] {
      var init, last := rows[..|rows| - 1], rows[|rows| - 1];
      assert rows == init + [last];
      TallyOfCounts(init, id);
      RowsOfSnoc(init, last, id);
      assert TallyOf(rows) == Record(TallyOf(init), last);
      if last.villaId == id {
        RecordOwnRow(TallyOf(init), last, RowsOf(init, id));
      } else {
        assert RowsOf(rows, id) == RowsOf(init, id);
      }
    }
  }

  /** Recording a row of the villa whose tally matches its earlier rows gives
      the tally of those rows and this one. */
  lemma RecordOwnRow(m: map<VillaId, Tally>, last: CalendarRow, before: seq<CalendarRow>)
    requires last.villaId in m <==> before != []
    requires last.villaId in m ==> m[last.villaId] == Tally(|before|, SumRates(before), AllAvailable(before))
    ensures Record(m, last)[last.villaId]
         == Tally(|before + [last]|, SumRates(before + [last]), AllAvailable(before + [last]))
  {
    SumRatesSnoc(before, last);
    assert AllAvailable(before + [last]) == (AllAvailable(before) && last.isAvailable);
  }

  /** The dated listing's selection test on a tally. */
  predicate Bookable(t: map<VillaId, Tally>, id: VillaId, nights: nat) {
    id in t && t[id].isAvailable && t[id].nights == nights
  }

  /** The calendar holds a row marking the villa available on day d. */
  ghost predicate HasAvailableRow(calendar: seq<CalendarRow>, id: VillaId, d: int) {
    exists r :: r in calendar && r.villaId == id && r.date == d && r.isAvailable
  }

  /** Every night of [checkIn, checkOut) has an explicit available row for the villa. */
  ghost predicate AvailableEveryNight(calendar: seq<CalendarRow>, id: VillaId, checkIn: int, checkOut: int) {
    forall d :: checkIn <= d < checkOut ==> HasAvailableRow(calendar, id, d)
  }

  /** The nights of the stay [checkIn, checkOut), as a set of days. */
  function Days(checkIn: int, checkOut: int): (ds: set<int>)
    requires checkIn <= checkOut
    ensures forall d :: d in ds <==> checkIn <= d < checkOut
    ensures |ds| == checkOut - checkIn
    decreases checkOut - checkIn
  {
    if checkIn == checkOut then {} else Days(checkIn, checkOut - 1) + {checkOut - 1}
  }

  function DatesOf(rows: seq<CalendarRow>): (ds: set<int>)
    ensures forall d :: d in ds <==> exists r :: r in rows && r.date == d
  {
    if rows == [] then {} else DatesOf(rows[..|rows| - 1]) + {rows[|rows| - 1].date}
  }

  lemma {:induction false} DistinctDatesCount(rows: seq<CalendarRow>)
    requires forall i, j :: 0 <= i < j < |rows| ==> rows[i].date != rows[j].date
    ensures |DatesOf(rows)| == |rows|
  {
    if rows != [] {
      var init, last := rows[..|rows| - 1], rows[|rows| - 1];
      DistinctDatesCount(init);
    }
  }

  lemma SubsetOfSameSize(a: set<int>, b: set<int>)
    requires a <= b && |a| == |b|
    ensures a == b
  {
    assert b == a + (b - a);
    assert a * (b - a) == {};
    assert |b - a| == 0;
  }

  /** The rows of one villa during the stay: one per night at most, so their
      dates are as many as they are, and all fall in the stay. */
  lemma StayRowsOfVilla(calendar: seq<CalendarRow>, id: VillaId, checkIn: int, checkOut: int)
    requires UniquePerVillaAndDate(calendar)
    requires checkIn <= checkOut
    ensures var mine := RowsOf(RowsInRange(calendar, checkIn, checkOut), id);
      && UniquePerVillaAndDate(mine)
      && |DatesOf(mine)| == |mine|
      && DatesOf(mine) <= Days(checkIn, checkOut)
  {
    var inRange := RowsInRange(calendar, checkIn, checkOut);
    var mine := RowsOf(inRange, id);
    FilterKeepsUnique(calendar, DuringStay(checkIn, checkOut));
    FilterKeepsUnique(inRange, OfVilla(id));
    forall i, j | 0 <= i < j < |mine| ensures mine[i].date != mine[j].date {
      assert mine[i] in mine && mine[j] in mine;
    }
    DistinctDatesCount(mine);
  }

  lemma BookableOnlyIfAvailableEveryNight(calendar: seq<CalendarRow>, id: VillaId, checkIn: int, checkOut: int)
    requires UniquePerVillaAndDate(calendar)
    requires checkIn < checkOut
    requires Bookable(TallyOf(RowsInRange(calendar, checkIn, checkOut)), id, checkOut - checkIn)
    ensures AvailableEveryNight(calendar, id, checkIn, checkOut)
  {
    var inRange := RowsInRange(calendar, checkIn, checkOut);
    var mine := RowsOf(inRange, id);
    TallyOfCounts(inRange, id);
    StayRowsOfVilla(calendar, id, checkIn, checkOut);
    SubsetOfSameSize(DatesOf(mine), Days(checkIn, checkOut));
    AvailableRowsCoverStay(calendar, id, checkIn, checkOut, mine);
  }

  /** Available rows of the villa whose dates are every night of the stay
      give an available row on each night. */
  lemma AvailableRowsCoverStay(calendar: seq<CalendarRow>, id: VillaId, checkIn: int, checkOut: int, mine: seq<CalendarRow>)
    requires checkIn <= checkOut
    requires forall r :: r in mine ==> r in calendar && r.villaId == id
    requires DatesOf(mine) == Days(checkIn, checkOut) && AllAvailable(mine)
    ensures AvailableEveryNight(calendar, id, checkIn, checkOut)
  {
    forall d | checkIn <= d < checkOut ensures HasAvailableRow(calendar, id, d) {
      assert d in DatesOf(mine);
      var r :| r in mine && r.date == d;
      assert r in calendar && r.isAvailable;
    }
  }

  lemma CoveredNights(calendar: seq<CalendarRow>, id: VillaId, checkIn: int, checkOut: int, mine: seq<CalendarRow>)
    requires checkIn <= checkOut
    requires forall r :: r in mine <==> r in calendar && r.villaId == id && checkIn <= r.date < checkOut
    requires AvailableEveryNight(calendar, id, checkIn, checkOut)
    ensures Days(checkIn, checkOut) <= DatesOf(mine)
  {
    forall d | d in Days(checkIn, checkOut) ensures d in DatesOf(mine) {
      assert HasAvailableRow(calendar, id, d);
      var r :| r in calendar && r.villaId == id && r.date == d && r.isAvailable;
      assert r in mine;
    }
  }

  lemma CoveredRowsAvailable(calendar: seq<CalendarRow>, id: VillaId, checkIn: int, checkOut: int, mine: seq<CalendarRow>)
    requires forall r :: r in mine <==> r in calendar && r.villaId == id && checkIn <= r.date < checkOut
    requires UniquePerVillaAndDate(mine)
    requires AvailableEveryNight(calendar, id, checkIn, checkOut)
    ensures AllAvailable(mine)
  {
    forall r | r in mine ensures r.isAvailable {
      assert HasAvailableRow(calendar, id, r.date);
      var r' :| r' in calendar && r'.villaId == id && r'.date == r.date && r'.isAvailable;
      assert r' in mine;
      var i :| 0 <= i < |mine| && mine[i] == r;
      var j :| 0 <= j < |mine| && mine[j] == r';
      assert i == j;
    }
  }

  lemma BookableIfAvailableEveryNight(calendar: seq<CalendarRow>, id: VillaId, checkIn: int, checkOut: int)
    requires UniquePerVillaAndDate(calendar)
    requires checkIn < checkOut
    requires AvailableEveryNight(calendar, id, checkIn, checkOut)
    ensures Bookable(TallyOf(RowsInRange(calendar, checkIn, checkOut)), id, checkOut - checkIn)
  {
    var inRange := RowsInRange(calendar, checkIn, checkOut);
    var mine := RowsOf(inRange, id);
    StayRowsOfVilla(calendar, id, checkIn, checkOut);
    StayRowsCovered(calendar, id, checkIn, checkOut, mine);
    TallyOfCounts(inRange, id);
  }

  /** A villa's rows in the stay, one per date, when every night has an
      available row: one row per night, all of them available. */
  lemma StayRowsCovered(calendar: seq<CalendarRow>, id: VillaId, checkIn: int, checkOut: int, mine: seq<CalendarRow>)
    requires checkIn <= checkOut
    requires forall r :: r in mine <==> r in calendar && r.villaId == id && checkIn <= r.date < checkOut
    requires UniquePerVillaAndDate(mine) && |DatesOf(mine)| == |mine| && DatesOf(mine) <= Days(checkIn, checkOut)
    requires AvailableEveryNight(calendar, id, checkIn, checkOut)
    ensures |mine| == checkOut - checkIn && AllAvailable(mine)
  {
    CoveredNights(calendar, id, checkIn, checkOut, mine);
    CoveredRowsAvailable(calendar, id, checkIn, checkOut, mine);
    assert DatesOf(mine) == Days(checkIn, checkOut);
  }

  /** With one row per villa and date, a villa passes the listing's test
      exactly when every night of the stay has an available row for it: a
      missing night excludes it just as an unavailable one does. */
  lemma BookableIffAvailableEveryNight(calendar: seq<CalendarRow>, id: VillaId, checkIn: int, checkOut: int)
    requires UniquePerVillaAndDate(calendar)
    requires checkIn < checkOut
    ensures Bookable(TallyOf(RowsInRange(calendar, checkIn, checkOut)), id, checkOut - checkIn)
        <==> AvailableEveryNight(calendar, id, checkIn, checkOut)
  {
    if Bookable(TallyOf(RowsInRange(calendar, checkIn, checkOut)), id, checkOut - checkIn) {
      BookableOnlyIfAvailableEveryNight(calendar, id, checkIn, checkOut);
    }
    if AvailableEveryNight(calendar, id, checkIn, checkOut) {
      BookableIfAvailableEveryNight(calendar, id, checkIn, checkOut);
    }
  }
}
