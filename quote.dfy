/** fetchVillaQuote: a night-by-night price breakdown of one villa over a
    stay, with GST on the subtotal when every night is available and all
    totals zeroed otherwise. */
module Quoting {
  import opened Domain
  import opened Pricing
  import Aggregation

  /** One entry of nightly_breakdown. The rate is absent (undefined) when the
      night has no calendar row and the villa has no base price. */
  datatype Night = Night(date: int, rate: Option<nat>, isAvailable: bool)

  datatype VillaRef = VillaRef(id: VillaId, name: string, location: string)

  /** The quote. Amounts are Option<nat>: None is the NaN that an undefined
      rate turns the running subtotal into, and every amount computed from it. */
  datatype Quote = Quote(villa: VillaRef, checkIn: DateArg, checkOut: DateArg, nights: nat,
                         isAvailable: bool, nightlyBreakdown: seq<Night>,
                         subtotal: Option<nat>, gstRatePercent: nat, gst: Option<nat>, total: Option<nat>)

  /** JavaScript `+` on the amounts: NaN or undefined on either side gives NaN. */
  function Add(a: Option<nat>, b: Option<nat>): Option<nat> {
    if a.Some? && b.Some? then Some(a.value + b.value) else None
  }

  /** `Math.round(subtotal * gst_rate)`, NaN staying NaN. */
  function GstOn(subtotal: Option<nat>): Option<nat> {
    if subtotal.Some? then Some(Gst(subtotal.value)) else None
  }

  function OfVillaDuringStay(id: VillaId, checkIn: int, checkOut: int): CalendarRow -> bool {
    (r: CalendarRow) => r.villaId == id && checkIn <= r.date < checkOut
  }

  /** The calendar query of the quote: the villa's rows in [checkIn, checkOut). */
  function QuoteRows(calendar: seq<CalendarRow>, id: VillaId, checkIn: int, checkOut: int): (rows: seq<CalendarRow>)
    ensures forall r :: r in rows <==> r in calendar && r.villaId == id && checkIn <= r.date < checkOut
  {
    Filter(calendar, OfVillaDuringStay(id, checkIn, checkOut))
  }

  /** calendarMap[d] once every row has been stored under its date: the last
      row of that date, if any. */
  function LastOn(rows: seq<CalendarRow>, d: int): (r: Option<CalendarRow>)
    ensures r.Some? ==> r.value in rows && r.value.date == d
    ensures r.None? <==> forall row :: row in rows ==> row.date != d
  {
    if rows == [] then None
    else if rows[|rows| - 1].date == d then Some(rows[|rows| - 1])
    else LastOn(rows[..|rows| - 1], d)
  }

  /** The forEach that indexes the villa's rows by date. */
  method IndexByDate(rows: seq<CalendarRow>) returns (calendarMap: map<int, CalendarRow>)
    ensures forall d :: d in calendarMap <==> LastOn(rows, d).Some?
    ensures forall d :: d in calendarMap ==> LastOn(rows, d) == Some(calendarMap[d])
  {
    calendarMap := map[];
    for i := 0 to |rows|
      invariant forall d :: d in calendarMap <==> LastOn(rows[..i], d).Some?
      invariant forall d :: d in calendarMap ==> LastOn(rows[..i], d) == Some(calendarMap[d])
    {
      calendarMap := calendarMap[rows[i].date := rows[i]];
      assert rows[..i + 1][..i] == rows[..i];
    }
    assert rows[..|rows|] == rows;
  }

  /** The breakdown entry of day d: the row's rate and flag, or else the base
      price and available. */
  function NightOf(rows: seq<CalendarRow>, basePrice: Option<nat>, d: int): Night {
    var row := LastOn(rows, d);
    Night(d, if row.Some? then Some(row.value.rate) else basePrice,
          if row.Some? then row.value.isAvailable else true)
  }

  function Breakdown(rows: seq<CalendarRow>, basePrice: Option<nat>, checkIn: int, nights: nat): (b: seq<Night>)
    ensures |b| == nights
  {
    seq(nights, i requires 0 <= i < nights => NightOf(rows, basePrice, checkIn + i))
  }

  lemma BreakdownAt(rows: seq<CalendarRow>, basePrice: Option<nat>, checkIn: int, nights: nat)
    ensures forall i :: 0 <= i < nights ==> Breakdown(rows, basePrice, checkIn, nights)[i] == NightOf(rows, basePrice, checkIn + i)
  {
  }

  /** The running subtotal after the nights of ns, starting from 0. */
  function Subtotal(ns: seq<Night>): (r: Option<nat>)
    ensures r.Some? <==> forall i :: 0 <= i < |ns| ==> ns[i].rate.Some?
  {
    if ns == [] then Some(0) else Add(Subtotal(ns[..|ns| - 1]), ns[|ns| - 1].rate)
  }

  lemma SubtotalSnoc(ns: seq<Night>, n: nat, before: nat, rate: nat)
    requires |ns| == n > 0
    requires Subtotal(ns[..n - 1]) == Some(before)
    requires ns[n - 1].rate == Some(rate)
    ensures Subtotal(ns) == Some(before + rate)
  {
  }

  predicate AllNightsAvailable(ns: seq<Night>) {
    forall i :: 0 <= i < |ns| ==> ns[i].isAvailable
  }

  /** The result of fetchVillaQuote: every date check comes before the villa lookup. */
  function QuoteOf(villaId: VillaId, checkIn: Option<DateArg>, checkOut: Option<DateArg>,
                   villas: seq<Villa>, calendar: seq<CalendarRow>): Result<Quote>
  {
    if checkIn.None? || checkOut.None? then Err(DatesRequired)
    else
      match CheckStay(checkIn.value, checkOut.value)
      case Err(e) => Err(e)
      case Ok(nights) =>
        match FindById(villas, villaId)
        case None => Err(VillaNotFound)
        case Some(villa) =>
          var rows := QuoteRows(calendar, villaId, checkIn.value.day, checkOut.value.day);
          var breakdown := Breakdown(rows, villa.basePrice, checkIn.value.day, nights);
          var subtotal := Subtotal(breakdown);
          var available := AllNightsAvailable(breakdown);
          var gst := if available then GstOn(subtotal) else Some(0);
          Ok(Quote(VillaRef(villa.id, villa.name, villa.location), checkIn.value, checkOut.value,
                   nights, available, breakdown,
                   if available then subtotal else Some(0), GstPercent, gst,
                   if available then Add(subtotal, gst) else Some(0)))
  }

  /** One turn of the nightly loop extends the breakdown by the next night, adds
      its rate to the running subtotal, and ands its flag into the availability. */
  lemma NightStep(rows: seq<CalendarRow>, basePrice: Option<nat>, checkIn: int, i: nat, breakdown: seq<Night>)
    requires breakdown == Breakdown(rows, basePrice, checkIn, i)
    ensures var night := NightOf(rows, basePrice, checkIn + i);
      && breakdown + [night] == Breakdown(rows, basePrice, checkIn, i + 1)
      && Subtotal(breakdown + [night]) == Add(Subtotal(breakdown), night.rate)
      && AllNightsAvailable(breakdown + [night]) == (AllNightsAvailable(breakdown) && night.isAvailable)
  {
    var night := NightOf(rows, basePrice, checkIn + i);
    assert (breakdown + [night])[..i] == breakdown;
  }

  /** fetchVillaQuote, with the repositories given as the villa collection and
      the calendar collection. */
  method FetchVillaQuote(villaId: VillaId, checkIn: Option<DateArg>, checkOut: Option<DateArg>,
                         villas: seq<Villa>, calendar: seq<CalendarRow>) returns (r: Result<Quote>)
    ensures r == QuoteOf(villaId, checkIn, checkOut, villas, calendar)
  {
    if checkIn.None? || checkOut.None? {
      return Err(DatesRequired);
    }
    var start, end := checkIn.value, checkOut.value;
    if !start.valid || !end.valid {
      return Err(InvalidDateFormat);
    }
    var nights := end.day - start.day;
    if nights <= 0 {
      return Err(CheckOutNotAfterCheckIn);
    }
    var found := FindById(villas, villaId);
    if found.None? {
      return Err(VillaNotFound);
    }
    var villa := found.value;
    var calendarRows := QuoteRows(calendar, villaId, start.day, end.day);
    var calendarMap := IndexByDate(calendarRows);

    var subtotal: Option<nat> := Some(0);
    var isAvailable := true;
    var breakdown: seq<Night> := [];
    for i := 0 to nights
      invariant breakdown == Breakdown(calendarRows, villa.basePrice, start.day, i)
      invariant subtotal == Subtotal(breakdown)
      invariant isAvailable == AllNightsAvailable(breakdown)
    {
      var date := start.day + i;
      var row := if date in calendarMap then Some(calendarMap[date]) else None;
      if row.Some? && !row.value.isAvailable {
        isAvailable := false;
      }
      var rate := if row.Some? then Some(row.value.rate) else villa.basePrice;
      subtotal := Add(subtotal, rate);
      var night := Night(date, rate, if row.Some? then row.value.isAvailable else true);
      assert night == NightOf(calendarRows, villa.basePrice, date);
      NightStep(calendarRows, villa.basePrice, start.day, i, breakdown);
      breakdown := breakdown + [night];
    }

    var gst := if isAvailable then GstOn(subtotal) else Some(0);
    var total := if isAvailable then Add(subtotal, gst) else Some(0);
    r := Ok(Quote(VillaRef(villa.id, villa.name, villa.location), start, end, nights, isAvailable,
                  breakdown, if isAvailable then subtotal else Some(0), GstPercent, gst, total));
  }

  /** The calendar holds a row for the villa on day d. */
  ghost predicate HasRowOn(calendar: seq<CalendarRow>, id: VillaId, d: int) {
    exists r :: r in calendar && r.villaId == id && r.date == d
  }

  lemma LastOnUnique(rows: seq<CalendarRow>, id: VillaId, r: CalendarRow)
    requires UniquePerVillaAndDate(rows)
    requires forall row :: row in rows ==> row.villaId == id
    requires r in rows
    ensures LastOn(rows, r.date) == Some(r)
  {
    var r' := LastOn(rows, r.date).value;
    var i :| 0 <= i < |rows| && rows[i] == r;
    var j :| 0 <= j < |rows| && rows[j] == r';
    assert i == j;
  }

  /** The rate of the row the index holds for day d, 0 when there is none. */
  function RateOn(rows: seq<CalendarRow>, d: int): nat {
    var row := LastOn(rows, d);
    if row.Some? then row.value.rate else 0
  }

  /** The rates the index holds for the days checkIn .. checkIn + nights - 1, summed. */
  function DaySum(rows: seq<CalendarRow>, checkIn: int, nights: nat): nat {
    if nights == 0 then 0 else DaySum(rows, checkIn, nights - 1) + RateOn(rows, checkIn + nights - 1)
  }

  lemma LastOnSnoc(rows: seq<CalendarRow>, x: CalendarRow, d: int)
    ensures LastOn(rows + [x], d) == if x.date == d then Some(x) else LastOn(rows, d)
  {
    assert (rows + [x])[..|rows|] == rows;
  }

  lemma {:induction false} DaySumEmpty(checkIn: int, nights: nat)
    ensures DaySum([], checkIn, nights) == 0
  {
    if nights > 0 {
      DaySumEmpty(checkIn, nights - 1);
    }
  }

  /** A row outside the days summed changes nothing. */
  lemma {:induction false} DaySumOtherRow(rows: seq<CalendarRow>, x: CalendarRow, checkIn: int, nights: nat)
    requires x.date < checkIn || checkIn + nights <= x.date
    ensures DaySum(rows + [x], checkIn, nights) == DaySum(rows, checkIn, nights)
  {
    if nights > 0 {
      DaySumOtherRow(rows, x, checkIn, nights - 1);
      LastOnSnoc(rows, x, checkIn + nights - 1);
    }
  }

  /** A row for a new day among those summed adds its rate. */
  lemma {:induction false} DaySumNewRow(rows: seq<CalendarRow>, x: CalendarRow, checkIn: int, nights: nat)
    requires forall y :: y in rows ==> y.date != x.date
    requires checkIn <= x.date < checkIn + nights
    ensures DaySum(rows + [x], checkIn, nights) == DaySum(rows, checkIn, nights) + x.rate
  {
    var d := checkIn + nights - 1;
    LastOnSnoc(rows, x, d);
    if x.date == d {
      DaySumOtherRow(rows, x, checkIn, nights - 1);
    } else {
      DaySumNewRow(rows, x, checkIn, nights - 1);
    }
  }

  /** Rows with distinct dates, all within the stay, sum to the day sum. */
  lemma {:induction false} DaySumIsSumRates(rows: seq<CalendarRow>, checkIn: int, nights: nat)
    requires forall i, j :: 0 <= i < j < |rows| ==> rows[i].date != rows[j].date
    requires forall x :: x in rows ==> checkIn <= x.date < checkIn + nights
    ensures DaySum(rows, checkIn, nights) == Aggregation.SumRates(rows)
  {
    if rows == [] {
      DaySumEmpty(checkIn, nights);
    } else {
      var init, last := rows[..|rows| - 1], rows[|rows| - 1];
      assert rows == init + [last];
      DaySumIsSumRates(init, checkIn, nights);
      forall y | y in init ensures y.date != last.date {
        var k :| 0 <= k < |init| && init[k] == y;
        assert rows[k] == y;
      }
      DaySumNewRow(init, last, checkIn, nights);
    }
  }

  /** When the index holds a row for every night, the running subtotal is the day sum. */
  lemma {:induction false} SubtotalIsDaySum(rows: seq<CalendarRow>, basePrice: Option<nat>, checkIn: int, nights: nat)
    requires forall d :: checkIn <= d < checkIn + nights ==> LastOn(rows, d).Some?
    ensures Subtotal(Breakdown(rows, basePrice, checkIn, nights)) == Some(DaySum(rows, checkIn, nights))
  {
    if nights > 0 {
      SubtotalIsDaySum(rows, basePrice, checkIn, nights - 1);
      var b := Breakdown(rows, basePrice, checkIn, nights);
      assert b[..nights - 1] == Breakdown(rows, basePrice, checkIn, nights - 1);
      assert LastOn(rows, checkIn + nights - 1).Some?;
      assert b[nights - 1] == NightOf(rows, basePrice, checkIn + nights - 1);
      SubtotalSnoc(b, nights, DaySum(rows, checkIn, nights - 1), RateOn(rows, checkIn + nights - 1));
    }
  }

  /** How a successful quote is assembled from the villa's rows in the stay. */
  lemma QuoteParts(villaId: VillaId, checkIn: DateArg, checkOut: DateArg, villas: seq<Villa>, calendar: seq<CalendarRow>)
    requires QuoteOf(villaId, Some(checkIn), Some(checkOut), villas, calendar).Ok?
    ensures var q := QuoteOf(villaId, Some(checkIn), Some(checkOut), villas, calendar).value;
      && FindById(villas, villaId).Some?
      && q.nightlyBreakdown == Breakdown(QuoteRows(calendar, villaId, checkIn.day, checkOut.day),
                                         FindById(villas, villaId).value.basePrice, checkIn.day, checkOut.day - checkIn.day)
      && q.isAvailable == AllNightsAvailable(q.nightlyBreakdown)
      && (q.isAvailable ==> q.subtotal == Subtotal(q.nightlyBreakdown)
                            && q.gst == GstOn(q.subtotal) && q.total == Add(q.subtotal, q.gst))
  {
  }

  /** The villa's rows in the stay have distinct dates, and with a row on every
      night the index holds one for each night. */
  lemma CoveredStayRows(calendar: seq<CalendarRow>, villaId: VillaId, checkIn: int, checkOut: int)
    requires UniquePerVillaAndDate(calendar)
    requires forall d :: checkIn <= d < checkOut ==> HasRowOn(calendar, villaId, d)
    ensures var rows := QuoteRows(calendar, villaId, checkIn, checkOut);
      && (forall i, j :: 0 <= i < j < |rows| ==> rows[i].date != rows[j].date)
      && (forall d :: checkIn <= d < checkOut ==> LastOn(rows, d).Some?)
  {
    var rows := QuoteRows(calendar, villaId, checkIn, checkOut);
    FilterKeepsUnique(calendar, OfVillaDuringStay(villaId, checkIn, checkOut));
    forall i, j | 0 <= i < j < |rows| ensures rows[i].date != rows[j].date {
      assert rows[i] in rows && rows[j] in rows;
    }
    forall d | checkIn <= d < checkOut ensures LastOn(rows, d).Some? {
      assert HasRowOn(calendar, villaId, d);
      var x :| x in calendar && x.villaId == villaId && x.date == d;
      assert x in rows;
    }
  }

  /** With one row per villa and date and a row for every night, the quote's
      subtotal is the sum of the rates of the villa's rows in the stay. */
  lemma QuoteSubtotalFromCalendar(villaId: VillaId, checkIn: DateArg, checkOut: DateArg,
                                  villas: seq<Villa>, calendar: seq<CalendarRow>)
    requires UniquePerVillaAndDate(calendar)
    requires QuoteOf(villaId, Some(checkIn), Some(checkOut), villas, calendar).Ok?
    requires forall d :: checkIn.day <= d < checkOut.day ==> HasRowOn(calendar, villaId, d)
    ensures var q := QuoteOf(villaId, Some(checkIn), Some(checkOut), villas, calendar).value;
      var sum := Aggregation.SumRates(QuoteRows(calendar, villaId, checkIn.day, checkOut.day));
      && Subtotal(q.nightlyBreakdown) == Some(sum)
      && (q.isAvailable ==> q.subtotal == Some(sum))
  {
    var villa := FindById(villas, villaId).value;
    var rows := QuoteRows(calendar, villaId, checkIn.day, checkOut.day);
    var nights := checkOut.day - checkIn.day;
    QuoteParts(villaId, checkIn, checkOut, villas, calendar);
    CoveredStayRows(calendar, villaId, checkIn.day, checkOut.day);
    SubtotalIsDaySum(rows, villa.basePrice, checkIn.day, nights);
    DaySumIsSumRates(rows, checkIn.day, nights);
  }

  /** Date errors, in the order the service checks them, come before the villa
      lookup: a bad stay never reports "villa_id not found". */
  lemma QuoteRejectsBadDates(villaId: VillaId, checkIn: Option<DateArg>, checkOut: Option<DateArg>,
                             villas: seq<Villa>, calendar: seq<CalendarRow>)
    ensures checkIn.None? || checkOut.None? ==>
      QuoteOf(villaId, checkIn, checkOut, villas, calendar) == Err(DatesRequired)
    ensures checkIn.Some? && checkOut.Some? && (!checkIn.value.valid || !checkOut.value.valid) ==>
      QuoteOf(villaId, checkIn, checkOut, villas, calendar) == Err(InvalidDateFormat)
    ensures checkIn.Some? && checkOut.Some? && checkIn.value.valid && checkOut.value.valid
            && checkOut.value.day <= checkIn.value.day ==>
      QuoteOf(villaId, checkIn, checkOut, villas, calendar) == Err(CheckOutNotAfterCheckIn)
    ensures QuoteOf(villaId, checkIn, checkOut, villas, calendar) == Err(VillaNotFound) <==>
      checkIn.Some? && checkOut.Some? && CheckStay(checkIn.value, checkOut.value).Ok?
      && forall v :: v in villas ==> v.id != villaId
  {
    if checkIn.Some? && checkOut.Some? && CheckStay(checkIn.value, checkOut.value).Ok?
       && forall v :: v in villas ==> v.id != villaId {
      assert FindById(villas, villaId).None?;
    }
  }

  /** The nights of the breakdown over the villa's rows: with one row per villa
      and date, a night with a row takes its rate and flag, and a night without
      one takes the base price and is available. */
  lemma NightsFromCalendar(calendar: seq<CalendarRow>, villaId: VillaId, checkIn: int, checkOut: int,
                           basePrice: Option<nat>)
    requires UniquePerVillaAndDate(calendar)
    requires checkIn < checkOut
    ensures var b := Breakdown(QuoteRows(calendar, villaId, checkIn, checkOut), basePrice, checkIn, checkOut - checkIn);
      && (forall i :: 0 <= i < |b| ==> b[i].date == checkIn + i)
      && (forall i, r :: 0 <= i < |b| && r in calendar && r.villaId == villaId && r.date == checkIn + i ==>
            b[i].rate == Some(r.rate) && b[i].isAvailable == r.isAvailable)
      && (forall i :: 0 <= i < |b| && !HasRowOn(calendar, villaId, checkIn + i) ==>
            b[i].rate == basePrice && b[i].isAvailable)
  {
    var rows := QuoteRows(calendar, villaId, checkIn, checkOut);
    var nights := checkOut - checkIn;
    var b := Breakdown(rows, basePrice, checkIn, nights);
    FilterKeepsUnique(calendar, OfVillaDuringStay(villaId, checkIn, checkOut));
    forall i | 0 <= i < |b| ensures b[i].date == checkIn + i {
      NightAt(rows, basePrice, checkIn, nights, i);
    }
    forall i, r | 0 <= i < |b| && r in calendar && r.villaId == villaId && r.date == checkIn + i
      ensures b[i].rate == Some(r.rate) && b[i].isAvailable == r.isAvailable
    {
      NightAt(rows, basePrice, checkIn, nights, i);
      assert r in rows;
      LastOnUnique(rows, villaId, r);
    }
    forall i | 0 <= i < |b| && !HasRowOn(calendar, villaId, checkIn + i)
      ensures b[i].rate == basePrice && b[i].isAvailable
    {
      NightAt(rows, basePrice, checkIn, nights, i);
      assert LastOn(rows, checkIn + i).None?;
    }
  }

  lemma NightAt(rows: seq<CalendarRow>, basePrice: Option<nat>, checkIn: int, nights: nat, i: nat)
    requires i < nights
    ensures Breakdown(rows, basePrice, checkIn, nights)[i] == NightOf(rows, basePrice, checkIn + i)
  {
  }

  /** The breakdown has one entry per night, for days checkIn, checkIn + 1, ...
      in order; with one row per villa and date, a night with a row takes its
      rate and flag, and a night without one takes the base price and is available. */
  lemma QuoteBreakdown(villaId: VillaId, checkIn: DateArg, checkOut: DateArg,
                       villas: seq<Villa>, calendar: seq<CalendarRow>)
    requires UniquePerVillaAndDate(calendar)
    requires QuoteOf(villaId, Some(checkIn), Some(checkOut), villas, calendar).Ok?
    ensures var q := QuoteOf(villaId, Some(checkIn), Some(checkOut), villas, calendar).value;
      var basePrice := FindById(villas, villaId).value.basePrice;
      && q.nights == checkOut.day - checkIn.day == |q.nightlyBreakdown|
      && (forall i :: 0 <= i < |q.nightlyBreakdown| ==> q.nightlyBreakdown[i].date == checkIn.day + i)
      && (forall i, r :: 0 <= i < |q.nightlyBreakdown| && r in calendar && r.villaId == villaId
                         && r.date == checkIn.day + i ==>
            q.nightlyBreakdown[i].rate == Some(r.rate) && q.nightlyBreakdown[i].isAvailable == r.isAvailable)
      && (forall i :: 0 <= i < |q.nightlyBreakdown| && !HasRowOn(calendar, villaId, checkIn.day + i) ==>
            q.nightlyBreakdown[i].rate == basePrice && q.nightlyBreakdown[i].isAvailable)
  {
    var villa := FindById(villas, villaId).value;
    var rows := QuoteRows(calendar, villaId, checkIn.day, checkOut.day);
    assert QuoteOf(villaId, Some(checkIn), Some(checkOut), villas, calendar).value.nightlyBreakdown
        == Breakdown(rows, villa.basePrice, checkIn.day, checkOut.day - checkIn.day);
    NightsFromCalendar(calendar, villaId, checkIn.day, checkOut.day, villa.basePrice);
  }

  /** The totals: the quote is available exactly when every night is; then GST
      is the subtotal's 18% rounded half up and the total their sum, and
      otherwise subtotal, GST and total are all 0. */
  lemma QuoteTotals(villaId: VillaId, checkIn: DateArg, checkOut: DateArg,
                    villas: seq<Villa>, calendar: seq<CalendarRow>)
    requires QuoteOf(villaId, Some(checkIn), Some(checkOut), villas, calendar).Ok?
    ensures var q := QuoteOf(villaId, Some(checkIn), Some(checkOut), villas, calendar).value;
      && (q.isAvailable <==> forall i :: 0 <= i < |q.nightlyBreakdown| ==> q.nightlyBreakdown[i].isAvailable)
      && q.gstRatePercent == 18
      && (q.isAvailable ==>
            && q.subtotal == Subtotal(q.nightlyBreakdown)
            && (q.subtotal.Some? <==> forall i :: 0 <= i < |q.nightlyBreakdown| ==> q.nightlyBreakdown[i].rate.Some?)
            && (q.subtotal.Some? ==>
                  q.gst == Some(Gst(q.subtotal.value)) && q.total == Some(q.subtotal.value + q.gst.value)))
      && (!q.isAvailable ==> q.subtotal == Some(0) && q.gst == Some(0) && q.total == Some(0))
  {
  }

  const ExampleVillas := [Villa(7, "Sea View", "Goa", None)]
  const ExampleCalendar := [CalendarRow(7, 10, true, 100), CalendarRow(7, 11, true, 200), CalendarRow(7, 12, true, 300)]

  lemma ExampleRows()
    ensures QuoteRows(ExampleCalendar, 7, 10, 13) == ExampleCalendar
  {
    var c := ExampleCalendar;
    assert c[..2] == [c[0], c[1]] && c[..2][..1] == [c[0]];
    assert c[..1] == [c[0]];
  }

  const ExampleNights := [Night(10, Some(100), true), Night(11, Some(200), true), Night(12, Some(300), true)]

  lemma ExampleBreakdown()
    ensures Breakdown(ExampleCalendar, None, 10, 3) == ExampleNights
  {
    var c := ExampleCalendar;
    assert c[..2] == [c[0], c[1]] && c[..2][..1] == [c[0]];
    assert LastOn(c, 10) == Some(c[0]);
    assert LastOn(c, 11) == Some(c[1]);
    assert LastOn(c, 12) == Some(c[2]);
    BreakdownAt(c, None, 10, 3);
  }

  /** Three available nights at 100, 200 and 300: subtotal 600, GST 108, total 708. */
  lemma FullyAvailableQuoteExample()
    ensures var r := QuoteOf(7, Some(DateArg(true, 10)), Some(DateArg(true, 13)), ExampleVillas, ExampleCalendar);
      && r.Ok? && r.value.isAvailable
      && r.value.subtotal == Some(600) && r.value.gst == Some(108) && r.value.total == Some(708)
  {
    var checkIn, checkOut := DateArg(true, 10), DateArg(true, 13);
    ExampleRows();
    ExampleBreakdown();
    assert FindById(ExampleVillas, 7) == Some(ExampleVillas[0]);
    QuoteParts(7, checkIn, checkOut, ExampleVillas, ExampleCalendar);
    ExampleNightsSum();
    assert Gst(600) == 108;
  }

  lemma ExampleNightsSum()
    ensures AllNightsAvailable(ExampleNights) && Subtotal(ExampleNights) == Some(600)
  {
    var b := ExampleNights;
    assert b[..2] == [b[0], b[1]] && b[..2][..1] == [b[0]];
    assert Subtotal(b[..1]) == Some(100);
    assert Subtotal(b[..2]) == Some(300);
  }

  const PricedVillas := [Villa(7, "Sea View", "Goa", Some(150))]
  const MixedCalendar := [CalendarRow(7, 10, true, 100), CalendarRow(7, 11, false, 200)]

  /** One night flagged unavailable: the quote is unavailable and its totals are
      0, while the breakdown still shows that night's own rate and flag; a
      night without a row shows the base price. */
  lemma UnavailableNightQuoteExample()
    ensures var r := QuoteOf(7, Some(DateArg(true, 10)), Some(DateArg(true, 13)), PricedVillas, MixedCalendar);
      && r.Ok? && !r.value.isAvailable
      && r.value.subtotal == Some(0) && r.value.gst == Some(0) && r.value.total == Some(0)
      && r.value.nightlyBreakdown == [Night(10, Some(100), true), Night(11, Some(200), false), Night(12, Some(150), true)]
  {
    var checkIn, checkOut := DateArg(true, 10), DateArg(true, 13);
    var c := MixedCalendar;
    assert QuoteRows(c, 7, 10, 13) == c by {
      assert c == [c[0]] + [c[1]];
      assert c[..1] == [c[0]];
    }
    assert LastOn(c, 10) == Some(c[0]);
    assert LastOn(c, 11) == Some(c[1]);
    assert LastOn(c, 12).None?;
    NightAt(c, Some(150), 10, 3, 0);
    NightAt(c, Some(150), 10, 3, 1);
    NightAt(c, Some(150), 10, 3, 2);
    var b := Breakdown(c, Some(150), 10, 3);
    assert b == [Night(10, Some(100), true), Night(11, Some(200), false), Night(12, Some(150), true)];
    assert FindById(PricedVillas, 7) == Some(PricedVillas[0]);
    QuoteParts(7, checkIn, checkOut, PricedVillas, c);
    assert !b[1].isAvailable;
  }
}
