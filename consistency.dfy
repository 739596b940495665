/** How the two operations agree: a villa the dated listing offers for a stay
    gets an available quote for the same stay, priced at the listing's subtotal. */
module Consistency {
  import opened Domain
  import opened Pricing
  import opened Aggregation
  import opened Listing
  import opened Sorting
  import opened Quoting

  /** The listing's rows of one villa (all rows in the stay, then that villa's)
      are the quote's rows (that villa's rows in the stay). */
  lemma {:induction false} StayRowsAgree(calendar: seq<CalendarRow>, id: VillaId, checkIn: int, checkOut: int)
    ensures RowsOf(RowsInRange(calendar, checkIn, checkOut), id) == QuoteRows(calendar, id, checkIn, checkOut)
  {
    if calendar != [] {
      var init, last := calendar[..|calendar| - 1], calendar[|calendar| - 1];
      assert calendar == init + [last];
      StayRowsAgree(init, id, checkIn, checkOut);
      FilterSnoc(init, last, DuringStay(checkIn, checkOut));
      FilterSnoc(init, last, OfVillaDuringStay(id, checkIn, checkOut));
      RowsOfSnoc(RowsInRange(init, checkIn, checkOut), last, id);
      if !(checkIn <= last.date < checkOut) {
        assert RowsInRange(calendar, checkIn, checkOut) == RowsInRange(init, checkIn, checkOut);
      }
    }
  }

  /** Every summary of the dated listing stands for a villa of the collection. */
  lemma ListedVillaExists(q: ListQuery, villas: seq<Villa>, calendar: seq<CalendarRow>, s: Summary)
    requires HasDates(q) && CheckStay(q.checkIn.value, q.checkOut.value).Ok?
    requires ListedData(q, villas, calendar).Ok? && s in ListedData(q, villas, calendar).value
    ensures exists v :: v in villas && v.id == s.id
  {
    var checkIn, checkOut := q.checkIn.value.day, q.checkOut.value.day;
    var nights := checkOut - checkIn;
    var inRange := RowsInRange(calendar, checkIn, checkOut);
    var t := TallyOf(inRange);
    var data := DatedData(villas, t, nights, q.location);
    assert inRange != [];
    assert ListedData(q, villas, calendar) == Ok(StableSort(data, q.sort, ParseOrder(q.order)));
    StableSortMembers(data, q.sort, ParseOrder(q.order));
    var found := Filter(villas, Selected(t, nights, q.location));
    var i :| 0 <= i < |data| && data[i] == s;
    assert found[i] in found;
  }

  /** A villa with an available row on every night of the stay gets an available quote. */
  lemma AvailableEveryNightQuote(villaId: VillaId, checkIn: DateArg, checkOut: DateArg,
                                 villas: seq<Villa>, calendar: seq<CalendarRow>)
    requires UniquePerVillaAndDate(calendar)
    requires QuoteOf(villaId, Some(checkIn), Some(checkOut), villas, calendar).Ok?
    requires AvailableEveryNight(calendar, villaId, checkIn.day, checkOut.day)
    ensures QuoteOf(villaId, Some(checkIn), Some(checkOut), villas, calendar).value.isAvailable
  {
    var q := QuoteOf(villaId, Some(checkIn), Some(checkOut), villas, calendar).value;
    var nb := q.nightlyBreakdown;
    QuoteBreakdown(villaId, checkIn, checkOut, villas, calendar);
    QuoteTotals(villaId, checkIn, checkOut, villas, calendar);
    forall i | 0 <= i < |nb| ensures nb[i].isAvailable {
      assert HasAvailableRow(calendar, villaId, checkIn.day + i);
      var r :| r in calendar && r.villaId == villaId && r.date == checkIn.day + i && r.isAvailable;
    }
  }

  /** A quote over an available row on every night: it counts the nights of
      the stay, its subtotal is the sum of the villa's rates in the stay, and
      its total adds the GST on that sum. */
  lemma AvailableEveryNightQuotePrice(villaId: VillaId, checkIn: Option<DateArg>, checkOut: Option<DateArg>,
                                      villas: seq<Villa>, calendar: seq<CalendarRow>)
    requires checkIn.Some? && checkOut.Some?
    requires UniquePerVillaAndDate(calendar)
    requires QuoteOf(villaId, checkIn, checkOut, villas, calendar).Ok?
    requires AvailableEveryNight(calendar, villaId, checkIn.value.day, checkOut.value.day)
    ensures var q := QuoteOf(villaId, checkIn, checkOut, villas, calendar).value;
      var sum := SumRates(QuoteRows(calendar, villaId, checkIn.value.day, checkOut.value.day));
      && q.isAvailable
      && q.nights == checkOut.value.day - checkIn.value.day
      && q.subtotal == Some(sum)
      && q.total == Some(TotalWithGst(sum))
  {
    var ci, co := checkIn.value, checkOut.value;
    assert checkIn == Some(ci) && checkOut == Some(co);
    AvailableEveryNightQuote(villaId, ci, co, villas, calendar);
    forall d | ci.day <= d < co.day ensures HasRowOn(calendar, villaId, d) {
      assert HasAvailableRow(calendar, villaId, d);
    }
    QuoteSubtotalFromCalendar(villaId, ci, co, villas, calendar);
    QuoteTotals(villaId, ci, co, villas, calendar);
    QuoteBreakdown(villaId, ci, co, villas, calendar);
  }

  /** What the dated listing says of a listed summary, in the quote's terms:
      the villa exists, every night has an available row, and the summary's
      nights and subtotal are the stay's and the sum of the quote's rows. */
  lemma ListedSummaryFacts(q: ListQuery, villas: seq<Villa>, calendar: seq<CalendarRow>, s: Summary)
    requires HasDates(q) && CheckStay(q.checkIn.value, q.checkOut.value).Ok?
    requires UniquePerVillaAndDate(calendar) && DistinctIds(villas)
    requires ListedData(q, villas, calendar).Ok? && s in ListedData(q, villas, calendar).value
    ensures var checkIn, checkOut := q.checkIn.value.day, q.checkOut.value.day;
      && FindById(villas, s.id).Some?
      && AvailableEveryNight(calendar, s.id, checkIn, checkOut)
      && s.nights == Some(checkOut - checkIn)
      && s.subtotal == Some(SumRates(QuoteRows(calendar, s.id, checkIn, checkOut)))
  {
    ListedVillaExists(q, villas, calendar, s);
    var v :| v in villas && v.id == s.id;
    DatedListingMembership(q, villas, calendar, v);
    DatedListingSummaries(q, villas, calendar);
    StayRowsAgree(calendar, s.id, q.checkIn.value.day, q.checkOut.value.day);
  }

  /** With one row per villa and date and distinct villa ids, every villa the
      dated listing offers can be quoted for the same stay: the quote is
      available, counts the same nights, and both report as subtotal the sum
      of the villa's rates in the stay, the quote adding the GST on it in its total. */
  lemma ListedVillaQuote(q: ListQuery, villas: seq<Villa>, calendar: seq<CalendarRow>, s: Summary)
    requires HasDates(q) && CheckStay(q.checkIn.value, q.checkOut.value).Ok?
    requires UniquePerVillaAndDate(calendar) && DistinctIds(villas)
    requires ListedData(q, villas, calendar).Ok? && s in ListedData(q, villas, calendar).value
    ensures var r := QuoteOf(s.id, q.checkIn, q.checkOut, villas, calendar);
      var sum := SumRates(QuoteRows(calendar, s.id, q.checkIn.value.day, q.checkOut.value.day));
      && r.Ok? && r.value.isAvailable
      && s.nights == Some(r.value.nights)
      && s.subtotal == Some(sum) && r.value.subtotal == Some(sum)
      && r.value.total == Some(TotalWithGst(sum))
  {
    ListedSummaryFacts(q, villas, calendar, s);
    AvailableEveryNightQuotePrice(s.id, q.checkIn, q.checkOut, villas, calendar);
  }
}
