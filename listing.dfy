/** fetchAvailableVillas: the paginated, sorted list of villa summaries, either
    for a stay (villas bookable for every night, with their subtotal and
    average nightly price) or, without dates, for every villa at its base price. */
module Listing {
  import opened Domain
  import opened Pricing
  import opened Aggregation
  import opened Sorting

  /** The query string of the listing. At the boundary page defaults to 1,
      limit to 10, sort to avg_price_per_night and order to "asc". */
  datatype ListQuery = ListQuery(checkIn: Option<DateArg>, checkOut: Option<DateArg>,
                                 location: Option<string>, page: nat, limit: nat,
                                 sort: SortField, order: string)

  const DefaultQuery := ListQuery(None, None, None, 1, 10, AvgPriceField, "asc")

  datatype Meta = Meta(page: nat, limit: nat, total: nat)

  datatype Listing = Listing(meta: Meta, data: seq<Summary>)

  /** The dated branch runs only when both dates are supplied. */
  predicate HasDates(q: ListQuery) {
    q.checkIn.Some? && q.checkOut.Some?
  }

  /** The villa query of the dated branch: bookable villas at the location. */
  function Selected(t: map<VillaId, Tally>, nights: nat, location: Option<string>): Villa -> bool {
    (v: Villa) => Bookable(t, v.id, nights) && LocationMatches(location, v)
  }

  function AtLocation(location: Option<string>): Villa -> bool {
    (v: Villa) => LocationMatches(location, v)
  }

  function DatedSummary(v: Villa, t: Tally, nights: nat): Summary
    requires nights > 0
  {
    Summary(v.id, v.name, v.location, Some(nights), Some(t.subtotal), AveragePerNight(t.subtotal, nights))
  }

  /** Summaries of the selected villas, in the order the villa collection returns them. */
  function DatedData(villas: seq<Villa>, t: map<VillaId, Tally>, nights: nat, location: Option<string>): seq<Summary>
    requires nights > 0
  {
    var found := Filter(villas, Selected(t, nights, location));
    seq(|found|, i requires 0 <= i < |found| =>
      assert found[i] in found; DatedSummary(found[i], t[found[i].id], nights))
  }

  /** `base_price || 0`. */
  function UndatedSummary(v: Villa): Summary {
    Summary(v.id, v.name, v.location, None, None, v.basePrice.GetOr(0))
  }

  function UndatedData(villas: seq<Villa>, location: Option<string>): seq<Summary> {
    var found := Filter(villas, AtLocation(location));
    seq(|found|, i requires 0 <= i < |found| => UndatedSummary(found[i]))
  }

  /** The data array before it is sorted. */
  function UnsortedData(q: ListQuery, villas: seq<Villa>, calendar: seq<CalendarRow>): Result<seq<Summary>> {
    if HasDates(q) then
      match CheckStay(q.checkIn.value, q.checkOut.value)
      case Err(e) => Err(e)
      case Ok(nights) =>
        var inRange := RowsInRange(calendar, q.checkIn.value.day, q.checkOut.value.day);
        if inRange == [] then Ok([])
        else Ok(DatedData(villas, TallyOf(inRange), nights, q.location))
    else Ok(UndatedData(villas, q.location))
  }

  /** The data array after the sort: every matching villa, before pagination. */
  function ListedData(q: ListQuery, villas: seq<Villa>, calendar: seq<CalendarRow>): Result<seq<Summary>> {
    match UnsortedData(q, villas, calendar)
    case Err(e) => Err(e)
    case Ok(data) => Ok(StableSort(data, q.sort, ParseOrder(q.order)))
  }

  function Min(a: nat, b: nat): nat {
    if a <= b then a else b
  }

  /** `data.slice((page - 1) * limit, (page - 1) * limit + limit)`: slice clamps both
      ends to the length, and with page 0 the window ends at index 0. */
  function Paginate(data: seq<Summary>, page: nat, limit: nat): (r: seq<Summary>)
    ensures |r| <= limit
    ensures page == 0 ==> r == []
    ensures page >= 1 ==>
      |r| == if (page - 1) * limit >= |data| then 0 else Min(limit, |data| - (page - 1) * limit)
    ensures page >= 1 ==> forall i :: 0 <= i < |r| ==> r[i] == data[(page - 1) * limit + i]
  {
    if page == 0 then []
    else
      var start := (page - 1) * limit;
      if start >= |data| then [] else data[start..Min(start + limit, |data|)]
  }

  /** The result of fetchAvailableVillas. */
  function AvailableVillas(q: ListQuery, villas: seq<Villa>, calendar: seq<CalendarRow>): Result<Listing>
  {
    match ListedData(q, villas, calendar)
    case Err(e) => Err(e)
    case Ok(data) => Ok(Listing(Meta(q.page, q.limit, |data|), Paginate(data, q.page, q.limit)))
  }

  /** The tail of fetchAvailableVillas: sorts the data in an array and cuts out the page. */
  method SortAndPaginate(q: ListQuery, data: seq<Summary>) returns (listing: Listing)
    ensures listing == Listing(Meta(q.page, q.limit, |data|),
                               Paginate(StableSort(data, q.sort, ParseOrder(q.order)), q.page, q.limit))
  {
    var a := new Summary[|data|](i requires 0 <= i < |data| => data[i]);
    assert a[..] == data;
    SortInPlace(a, q.sort, ParseOrder(q.order));
    var sorted := a[..];
    listing := Listing(Meta(q.page, q.limit, |sorted|), Paginate(sorted, q.page, q.limit));
  }

  /** fetchAvailableVillas, with the repositories given as the villa collection
      and the calendar collection. */
  method FetchAvailableVillas(q: ListQuery, villas: seq<Villa>, calendar: seq<CalendarRow>)
    returns (r: Result<Listing>)
    ensures r == AvailableVillas(q, villas, calendar)
  {
    var data: seq<Summary>;
    if q.checkIn.Some? && q.checkOut.Some? {
      var checkIn, checkOut := q.checkIn.value, q.checkOut.value;
      if !checkIn.valid || !checkOut.valid {
        return Err(InvalidDateFormat);
      }
      var nights := checkOut.day - checkIn.day;
      if nights <= 0 {
        return Err(CheckOutNotAfterCheckIn);
      }
      var calendarRows := RowsInRange(calendar, checkIn.day, checkOut.day);
      if |calendarRows| == 0 {
        assert ListedData(q, villas, calendar) == Ok([]);
        return Ok(Listing(Meta(q.page, q.limit, 0), []));
      }
      var villaMap := GroupByVilla(calendarRows);
      data := DatedData(villas, villaMap, nights, q.location);
    } else {
      data := UndatedData(villas, q.location);
    }
    assert UnsortedData(q, villas, calendar) == Ok(data);
    var listing := SortAndPaginate(q, data);
    r := Ok(listing);
  }

  lemma DatedDataMembership(villas: seq<Villa>, t: map<VillaId, Tally>, nights: nat, location: Option<string>, v: Villa)
    requires nights > 0
    requires DistinctIds(villas) && v in villas
    ensures (exists s :: s in DatedData(villas, t, nights, location) && s.id == v.id)
        <==> Bookable(t, v.id, nights) && LocationMatches(location, v)
  {
    var found := Filter(villas, Selected(t, nights, location));
    var data := DatedData(villas, t, nights, location);
    if exists s :: s in data && s.id == v.id {
      var s :| s in data && s.id == v.id;
      var i :| 0 <= i < |data| && data[i] == s;
      var w := found[i];
      assert w in found;
      var a :| 0 <= a < |villas| && villas[a] == w;
      var b :| 0 <= b < |villas| && villas[b] == v;
      assert a == b;
    }
    if Bookable(t, v.id, nights) && LocationMatches(location, v) {
      assert v in found;
      var i :| 0 <= i < |found| && found[i] == v;
      assert data[i] in data;
    }
  }

  lemma DatedDataFields(villas: seq<Villa>, t: map<VillaId, Tally>, nights: nat, location: Option<string>)
    requires nights > 0
    ensures forall s :: s in DatedData(villas, t, nights, location) ==>
      && s.id in t
      && s.nights == Some(nights)
      && s.subtotal == Some(t[s.id].subtotal)
      && s.avgPricePerNight == AveragePerNight(t[s.id].subtotal, nights)
  {
    var found := Filter(villas, Selected(t, nights, location));
    var data := DatedData(villas, t, nights, location);
    forall s | s in data
      ensures s.id in t && s.nights == Some(nights) && s.subtotal == Some(t[s.id].subtotal)
    {
      var i :| 0 <= i < |data| && data[i] == s;
      assert found[i] in found;
    }
  }

  lemma UndatedDataMembership(villas: seq<Villa>, location: Option<string>, v: Villa)
    requires DistinctIds(villas) && v in villas
    ensures (exists s :: s in UndatedData(villas, location) && s.id == v.id) <==> LocationMatches(location, v)
    ensures forall s :: s in UndatedData(villas, location) && s.id == v.id ==> s == UndatedSummary(v)
  {
    var found := Filter(villas, AtLocation(location));
    var data := UndatedData(villas, location);
    forall s | s in data && s.id == v.id ensures s == UndatedSummary(v) && LocationMatches(location, v) {
      var i :| 0 <= i < |data| && data[i] == s;
      var w := found[i];
      assert w in found;
      var a :| 0 <= a < |villas| && villas[a] == w;
      var b :| 0 <= b < |villas| && villas[b] == v;
      assert a == b;
    }
    if LocationMatches(location, v) {
      assert v in found;
      var i :| 0 <= i < |found| && found[i] == v;
      assert data[i] in data;
    }
  }

  /** Both dates supplied: a malformed date, or a check-out not after the
      check-in, is rejected with its own message whatever the collections hold. */
  lemma ListingRejectsBadDates(q: ListQuery, villas: seq<Villa>, calendar: seq<CalendarRow>)
    requires HasDates(q)
    ensures !q.checkIn.value.valid || !q.checkOut.value.valid ==>
      AvailableVillas(q, villas, calendar) == Err(InvalidDateFormat)
    ensures q.checkIn.value.valid && q.checkOut.value.valid && q.checkOut.value.day <= q.checkIn.value.day ==>
      AvailableVillas(q, villas, calendar) == Err(CheckOutNotAfterCheckIn)
    ensures AvailableVillas(q, villas, calendar).Err? ==> AvailableVillas(q, villas, calendar).error != VillaNotFound
  {
  }

  /** A stay with no calendar rows at all gives an empty page and a total of 0. */
  lemma NoRowsInStayEmptyListing(q: ListQuery, villas: seq<Villa>, calendar: seq<CalendarRow>)
    requires HasDates(q) && CheckStay(q.checkIn.value, q.checkOut.value).Ok?
    requires forall r :: r in calendar ==> !(q.checkIn.value.day <= r.date < q.checkOut.value.day)
    ensures AvailableVillas(q, villas, calendar) == Ok(Listing(Meta(q.page, q.limit, 0), []))
  {
    FilterNone(calendar, DuringStay(q.checkIn.value.day, q.checkOut.value.day));
  }

  /** The dated listing holds a villa exactly when its tally over the stay's rows is bookable. */
  lemma DatedListingByTally(q: ListQuery, villas: seq<Villa>, calendar: seq<CalendarRow>, v: Villa)
    requires HasDates(q) && CheckStay(q.checkIn.value, q.checkOut.value).Ok?
    requires DistinctIds(villas) && v in villas
    ensures ListedData(q, villas, calendar).Ok?
    ensures (exists s :: s in ListedData(q, villas, calendar).value && s.id == v.id)
        <==> Bookable(TallyOf(RowsInRange(calendar, q.checkIn.value.day, q.checkOut.value.day)),
                      v.id, q.checkOut.value.day - q.checkIn.value.day)
             && LocationMatches(q.location, v)
  {
    var checkIn, checkOut := q.checkIn.value.day, q.checkOut.value.day;
    var nights := checkOut - checkIn;
    var inRange := RowsInRange(calendar, checkIn, checkOut);
    if inRange == [] {
      assert ListedData(q, villas, calendar) == Ok([]);
    } else {
      var data := DatedData(villas, TallyOf(inRange), nights, q.location);
      assert ListedData(q, villas, calendar) == Ok(StableSort(data, q.sort, ParseOrder(q.order)));
      StableSortMembers(data, q.sort, ParseOrder(q.order));
      DatedDataMembership(villas, TallyOf(inRange), nights, q.location, v);
    }
  }

  /** Dated listing: with one calendar row per villa and date, a villa is
      listed exactly when every night of the stay has an available row for it
      and it is at the requested location (if any). */
  lemma DatedListingMembership(q: ListQuery, villas: seq<Villa>, calendar: seq<CalendarRow>, v: Villa)
    requires HasDates(q) && CheckStay(q.checkIn.value, q.checkOut.value).Ok?
    requires UniquePerVillaAndDate(calendar) && DistinctIds(villas) && v in villas
    ensures ListedData(q, villas, calendar).Ok?
    ensures (exists s :: s in ListedData(q, villas, calendar).value && s.id == v.id)
        <==> AvailableEveryNight(calendar, v.id, q.checkIn.value.day, q.checkOut.value.day)
             && LocationMatches(q.location, v)
  {
    DatedListingByTally(q, villas, calendar, v);
    BookableIffAvailableEveryNight(calendar, v.id, q.checkIn.value.day, q.checkOut.value.day);
  }

  lemma DatedDataSubtotals(villas: seq<Villa>, inRange: seq<CalendarRow>, nights: nat, location: Option<string>)
    requires nights > 0
    ensures forall s :: s in DatedData(villas, TallyOf(inRange), nights, location) ==>
      && s.nights == Some(nights)
      && s.subtotal == Some(SumRates(RowsOf(inRange, s.id)))
      && s.avgPricePerNight == AveragePerNight(s.subtotal.value, nights)
  {
    var t := TallyOf(inRange);
    DatedDataFields(villas, t, nights, location);
    forall s | s in DatedData(villas, t, nights, location)
      ensures s.subtotal == Some(SumRates(RowsOf(inRange, s.id)))
    {
      TallyOfCounts(inRange, s.id);
    }
  }

  /** Dated listing: every summary reports the requested nights, the sum of the
      villa's rates over the stay, and that sum divided by the nights, rounded
      half up. */
  lemma DatedListingSummaries(q: ListQuery, villas: seq<Villa>, calendar: seq<CalendarRow>)
    requires HasDates(q) && CheckStay(q.checkIn.value, q.checkOut.value).Ok?
    ensures ListedData(q, villas, calendar).Ok?
    ensures var checkIn, checkOut := q.checkIn.value.day, q.checkOut.value.day;
      forall s :: s in ListedData(q, villas, calendar).value ==>
        && (exists v :: v in villas && v.id == s.id && s.name == v.name && s.location == v.location)
        && s.nights == Some(checkOut - checkIn)
        && s.subtotal == Some(SumRates(RowsOf(RowsInRange(calendar, checkIn, checkOut), s.id)))
        && s.avgPricePerNight == AveragePerNight(s.subtotal.value, checkOut - checkIn)
  {
    var checkIn, checkOut := q.checkIn.value.day, q.checkOut.value.day;
    var nights := checkOut - checkIn;
    var inRange := RowsInRange(calendar, checkIn, checkOut);
    if inRange != [] {
      var data := DatedData(villas, TallyOf(inRange), nights, q.location);
      assert ListedData(q, villas, calendar) == Ok(StableSort(data, q.sort, ParseOrder(q.order)));
      StableSortMembers(data, q.sort, ParseOrder(q.order));
      DatedDataSubtotals(villas, inRange, nights, q.location);
      var found := Filter(villas, Selected(TallyOf(inRange), nights, q.location));
      forall s | s in ListedData(q, villas, calendar).value
        ensures exists v :: v in villas && v.id == s.id && s.name == v.name && s.location == v.location
      {
        var i :| 0 <= i < |data| && data[i] == s;
        assert found[i] in found;
      }
    }
  }

  /** Undated listing (a date missing): every villa at the location is listed,
      and nothing else, each with null nights and subtotal and its base price
      (0 when absent) as the average. */
  lemma UndatedListing(q: ListQuery, villas: seq<Villa>, calendar: seq<CalendarRow>, v: Villa)
    requires !HasDates(q)
    requires DistinctIds(villas) && v in villas
    ensures ListedData(q, villas, calendar).Ok?
    ensures forall s :: s in ListedData(q, villas, calendar).value ==> s.nights.None? && s.subtotal.None?
    ensures (exists s :: s in ListedData(q, villas, calendar).value && s.id == v.id) <==> LocationMatches(q.location, v)
    ensures forall s :: s in ListedData(q, villas, calendar).value && s.id == v.id ==>
      s.name == v.name && s.location == v.location &&
      s.avgPricePerNight == (if v.basePrice.Some? then v.basePrice.value else 0)
    ensures forall s :: s in ListedData(q, villas, calendar).value ==>
      exists w :: w in villas && LocationMatches(q.location, w) && s == UndatedSummary(w)
  {
    var data := UndatedData(villas, q.location);
    StableSortMembers(data, q.sort, ParseOrder(q.order));
    UndatedDataMembership(villas, q.location, v);
    var found := Filter(villas, AtLocation(q.location));
    forall s | s in ListedData(q, villas, calendar).value
      ensures exists w :: w in villas && LocationMatches(q.location, w) && s == UndatedSummary(w)
    {
      var i :| 0 <= i < |data| && data[i] == s;
      assert found[i] in found;
    }
  }

  /** The query's defaults (page 1, limit 10, no dates, no location): meta
      counts every villa of the collection, and the page is the first ten
      summaries of the sorted listing, each the summary of one of the villas. */
  lemma DefaultQueryListing(villas: seq<Villa>, calendar: seq<CalendarRow>)
    ensures AvailableVillas(DefaultQuery, villas, calendar).Ok?
    ensures ListedData(DefaultQuery, villas, calendar).Ok?
    ensures var listing, all := AvailableVillas(DefaultQuery, villas, calendar).value,
                                ListedData(DefaultQuery, villas, calendar).value;
      && listing.meta == Meta(1, 10, |villas|)
      && |all| == |villas|
      && |listing.data| == Min(10, |villas|)
      && listing.data == all[..Min(10, |all|)]
      && forall s :: s in listing.data ==> exists w :: w in villas && s == UndatedSummary(w)
  {
    FilterAll(villas, AtLocation(None));
    var data := UndatedData(villas, None);
    var all := StableSort(data, AvgPriceField, ParseOrder("asc"));
    assert ListedData(DefaultQuery, villas, calendar) == Ok(all);
    assert |all| == |villas|;
    var page := Paginate(all, 1, 10);
    assert AvailableVillas(DefaultQuery, villas, calendar) == Ok(Listing(Meta(1, 10, |all|), page));
    assert page == all[..Min(10, |all|)];
    StableSortMembers(data, AvgPriceField, Asc);
    var found := Filter(villas, AtLocation(None));
    forall s | s in page ensures exists w :: w in villas && s == UndatedSummary(w) {
      var i :| 0 <= i < |page| && page[i] == s;
      assert all[i] in all;
      var k :| 0 <= k < |data| && data[k] == s;
      assert found[k] in found;
    }
  }

  /** The listed data is the pre-sort data reordered: non-decreasing keys for
      "asc", non-increasing otherwise for "desc", equal keys in prior order. */
  lemma ListingOrder(q: ListQuery, villas: seq<Villa>, calendar: seq<CalendarRow>)
    requires UnsortedData(q, villas, calendar).Ok?
    ensures ListedData(q, villas, calendar).Ok?
    ensures var before, after := UnsortedData(q, villas, calendar).value, ListedData(q, villas, calendar).value;
      && multiset(after) == multiset(before)
      && (q.order == "desc" ==> forall i, j :: 0 <= i < j < |after| ==> Key(after[i], q.sort) >= Key(after[j], q.sort))
      && (q.order != "desc" ==> forall i, j :: 0 <= i < j < |after| ==> Key(after[i], q.sort) <= Key(after[j], q.sort))
      && forall k :: WithKey(after, q.sort, k) == WithKey(before, q.sort, k)
  {
    StableSortCorrect(UnsortedData(q, villas, calendar).value, q.sort, ParseOrder(q.order));
  }

  /** The page is the window [(page - 1) * limit, (page - 1) * limit + limit) of the
      listed data, never longer than limit; meta echoes page and limit and
      counts the whole listed data. */
  lemma ListingPage(q: ListQuery, villas: seq<Villa>, calendar: seq<CalendarRow>)
    ensures AvailableVillas(q, villas, calendar).Ok? <==> ListedData(q, villas, calendar).Ok?
    ensures AvailableVillas(q, villas, calendar).Ok? ==>
      var listing, all := AvailableVillas(q, villas, calendar).value, ListedData(q, villas, calendar).value;
      var start := (q.page - 1) * q.limit;
      && listing.meta == Meta(q.page, q.limit, |all|)
      && |listing.data| <= q.limit
      && (q.page == 0 ==> listing.data == [])
      && (q.page >= 1 ==> |listing.data| == (if start >= |all| then 0 else Min(q.limit, |all| - start)))
      && (q.page >= 1 ==> forall i :: 0 <= i < |listing.data| ==> listing.data[i] == all[start + i])
  {
    var listed := ListedData(q, villas, calendar);
    if listed.Ok? {
      var all := listed.value;
      var page := Paginate(all, q.page, q.limit);
      assert AvailableVillas(q, villas, calendar) == Ok(Listing(Meta(q.page, q.limit, |all|), page));
    }
  }
}
