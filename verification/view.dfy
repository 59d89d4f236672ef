/** What the list screen shows: the products sorted by expiry, narrowed by
    the search box and the status filter, each with its remaining days and
    state; and the alert line, which always looks at the whole collection. */
module View {
  import opened JsText
  import opened Expiry
  import opened Sorting
  import opened Inventory

  /** The two ways the program turns an expiry text into a timestamp:
      `new Date(expiry)` when sorting, and `new Date(expiry + 'T23:59:59')`,
      the last second of that day, when counting days. */
  datatype Dates = Dates(parse: string -> int, endOfDay: string -> int)

  /** The sort comparator's key. */
  function ExpiryKey(dates: Dates): Product -> int {
    (p: Product) => dates.parse(p.expiry)
  }

  function DaysLeft(p: Product, now: int, dates: Dates): int {
    DaysUntil(dates.endOfDay(p.expiry), now)
  }

  function StatusOf(p: Product, now: int, dates: Dates): Status {
    Classify(DaysLeft(p, now, dates))
  }

  /** The search text as compared: trimmed, then lowercased. */
  function Needle(query: string): string {
    Lower(Trim(query))
  }

  /** The search test: an empty needle matches everything, otherwise the
      lowercased name or category must contain it. */
  predicate MatchesQuery(p: Product, needle: string) {
    needle == [] || Includes(Lower(p.name), needle) || Includes(Lower(p.category), needle)
  }

  /** Whether a product ends up on the list. */
  function Shown(now: int, dates: Dates, needle: string, filter: string): Product -> bool {
    (p: Product) => MatchesQuery(p, needle) && PassesFilter(filter, DaysLeft(p, now, dates))
  }

  /** One line of the list. */
  datatype Row = Row(product: Product, days: int, status: Status)

  /** The alert line: the "soon" message wins over the "expired" one. */
  datatype Alert = SoonAlert(count: nat) | ExpiredAlert(count: nat) | NoAlert

  datatype Screen = Screen(rows: seq<Row>, alert: Alert)

  /** A row carries its product's day count and the state that count means. */
  ghost predicate RowIsAccurate(row: Row, now: int, dates: Dates) {
    row.days == DaysLeft(row.product, now, dates) && row.status == Classify(row.days)
  }

  /** The rendering loop over the sorted products: skip what the search
      rejects, compute the days left, skip what the status filter rejects,
      emit a row for the rest. */
  function Rows(sorted: seq<Product>, now: int, dates: Dates, needle: string, filter: string): (r: seq<Row>)
    ensures |r| <= |sorted|
    ensures forall i :: 0 <= i < |r| ==> RowIsAccurate(r[i], now, dates)
  {
    if |sorted| == 0 then []
    else
      var p := sorted[0];
      var rest := Rows(sorted[1..], now, dates, needle, filter);
      if !MatchesQuery(p, needle) then
        rest
      else
        var days := DaysLeft(p, now, dates);
        if !PassesFilter(filter, days) then rest
        else [Row(p, days, Classify(days))] + rest
  }

  function ProductsOf(rows: seq<Row>): (r: seq<Product>)
    ensures |r| == |rows|
    ensures forall i :: 0 <= i < |rows| ==> r[i] == rows[i].product
  {
    if |rows| == 0 then [] else [rows[0].product] + ProductsOf(rows[1..])
  }

  /** The loop emits exactly the products the search and the filter
      accept, in the order it visits them. */
  lemma {:induction false} RowsAreFilter(sorted: seq<Product>, now: int, dates: Dates, needle: string, filter: string)
    ensures ProductsOf(Rows(sorted, now, dates, needle, filter)) == Filter(sorted, Shown(now, dates, needle, filter))
  {
    if |sorted| > 0 {
      RowsAreFilter(sorted[1..], now, dates, needle, filter);
    }
  }

  /** `render`: sort a copy of the collection by expiry, run the loop over
      it, and compute the alert from the whole collection. */
  function Render(products: seq<Product>, now: int, dates: Dates, query: string, filter: string): (v: Screen)
    ensures ProductsOf(v.rows) == Filter(SortBy(products, ExpiryKey(dates)), Shown(now, dates, Needle(query), filter))
    ensures SortedBy(ProductsOf(v.rows), ExpiryKey(dates))
    ensures forall i :: 0 <= i < |v.rows| ==> RowIsAccurate(v.rows[i], now, dates)
  {
    var sorted := SortBy(products, ExpiryKey(dates));
    var rows := Rows(sorted, now, dates, Needle(query), filter);
    RowsAreFilter(sorted, now, dates, Needle(query), filter);
    FilterSorted(sorted, Shown(now, dates, Needle(query), filter), ExpiryKey(dates));
    Screen(rows, Summarize(products, now, dates))
  }

  /** What the list holds: each product the search and the filter accept,
      as often as it is in the collection, and nothing else. */
  lemma RenderShowsExactly(products: seq<Product>, now: int, dates: Dates, query: string, filter: string)
    ensures var shown := Shown(now, dates, Needle(query), filter);
            forall p :: multiset(ProductsOf(Render(products, now, dates, query, filter).rows))[p]
                          == if shown(p) then multiset(products)[p] else 0
  {
    var sorted := SortBy(products, ExpiryKey(dates));
    FilterMultiplicity(sorted, Shown(now, dates, Needle(query), filter));
  }

  /** Products with the same sort key keep their collection order on the
      list, so the list is a filtered stable sort of the collection. */
  lemma RenderStable(products: seq<Product>, now: int, dates: Dates, query: string, filter: string, k: int)
    ensures var shown := Shown(now, dates, Needle(query), filter);
            Filter(ProductsOf(Render(products, now, dates, query, filter).rows), KeyIs(ExpiryKey(dates), k))
              == Filter(Filter(products, shown), KeyIs(ExpiryKey(dates), k))
  {
    var shown := Shown(now, dates, Needle(query), filter);
    var same := KeyIs(ExpiryKey(dates), k);
    var sorted := SortBy(products, ExpiryKey(dates));
    FilterCommute(sorted, shown, same);
    SortStable(products, ExpiryKey(dates), k);
    FilterCommute(products, same, shown);
  }

  /** The list's acceptance test in the user's terms: the search matches,
      and a filter naming a state keeps only that state while any other
      filter value keeps every state. */
  lemma ShownMeaning(p: Product, now: int, dates: Dates, needle: string, filter: string)
    ensures Shown(now, dates, needle, filter)(p) <==>
              && (needle == [] || OccursIn(needle, Lower(p.name)) || OccursIn(needle, Lower(p.category)))
              && (filter in {"expired", "soon", "ok"} ==> filter == StatusName(StatusOf(p, now, dates)))
  {
    FilterSelectsState(filter, DaysLeft(p, now, dates));
  }

  /** A blank search and a filter naming no state list the whole collection
      in sorted order. */
  lemma BlankSearchShowsAll(products: seq<Product>, now: int, dates: Dates, query: string, filter: string)
    requires forall i :: 0 <= i < |query| ==> IsJsSpace(query[i])
    requires filter !in {"expired", "soon", "ok"}
    ensures ProductsOf(Render(products, now, dates, query, filter).rows) == SortBy(products, ExpiryKey(dates))
  {
    TrimEmptyIffAllSpace(query);
    var sorted := SortBy(products, ExpiryKey(dates));
    var shown := Shown(now, dates, Needle(query), filter);
    forall i | 0 <= i < |sorted| ensures shown(sorted[i]) {
      FilterSelectsState(filter, DaysLeft(sorted[i], now, dates));
    }
    FilterAll(sorted, shown);
  }

  /** The alert's "upcoming" test as the program writes it. */
  function IsUpcoming(now: int, dates: Dates): Product -> bool {
    (p: Product) => IsSoon(DaysLeft(p, now, dates))
  }

  /** The alert's "expired" test as the program writes it. */
  function IsOverdue(now: int, dates: Dates): Product -> bool {
    (p: Product) => IsExpired(DaysLeft(p, now, dates))
  }

  /** The alert summary: how many products are soon to expire if any are;
      otherwise how many have expired if any have; otherwise nothing. */
  function Summarize(products: seq<Product>, now: int, dates: Dates): (a: Alert)
    ensures a.SoonAlert? <==> exists i :: 0 <= i < |products| && StatusOf(products[i], now, dates) == Soon
    ensures a.ExpiredAlert? <==>
              && (forall i :: 0 <= i < |products| ==> StatusOf(products[i], now, dates) != Soon)
              && (exists i :: 0 <= i < |products| && StatusOf(products[i], now, dates) == Expired)
    ensures a.NoAlert? <==> forall i :: 0 <= i < |products| ==> StatusOf(products[i], now, dates) == Ok
    ensures a.SoonAlert? ==> 0 < a.count <= |products|
    ensures a.ExpiredAlert? ==> 0 < a.count <= |products|
  {
    var upcoming := Filter(products, IsUpcoming(now, dates));
    var expired := Filter(products, IsOverdue(now, dates));
    FilterEmptyIff(products, IsUpcoming(now, dates));
    FilterEmptyIff(products, IsOverdue(now, dates));
    if |upcoming| > 0 then SoonAlert(|upcoming|)
    else if |expired| > 0 then ExpiredAlert(|expired|)
    else NoAlert
  }

  /** The counts are those of the whole collection: a product counts once
      for each time it is in the collection with that state. */
  lemma SummaryCounts(products: seq<Product>, now: int, dates: Dates)
    ensures var a := Summarize(products, now, dates);
            && (a.SoonAlert? ==> forall p :: multiset(Filter(products, IsUpcoming(now, dates)))[p]
                                   == if StatusOf(p, now, dates) == Soon then multiset(products)[p] else 0)
            && (a.SoonAlert? ==> a.count == |Filter(products, IsUpcoming(now, dates))|)
            && (a.ExpiredAlert? ==> forall p :: multiset(Filter(products, IsOverdue(now, dates)))[p]
                                      == if StatusOf(p, now, dates) == Expired then multiset(products)[p] else 0)
            && (a.ExpiredAlert? ==> a.count == |Filter(products, IsOverdue(now, dates))|)
  {
    StateCount(products, now, dates, Soon, IsUpcoming(now, dates));
    StateCount(products, now, dates, Expired, IsOverdue(now, dates));
  }

  /** Filtering by a test that picks exactly one state keeps each product
      in that state as often as it occurs. */
  lemma StateCount(products: seq<Product>, now: int, dates: Dates, st: Status, keep: Product -> bool)
    requires st == Soon ==> keep == IsUpcoming(now, dates)
    requires st == Expired ==> keep == IsOverdue(now, dates)
    requires st != Ok
    ensures forall p :: multiset(Filter(products, keep))[p]
                          == if StatusOf(p, now, dates) == st then multiset(products)[p] else 0
  {
    FilterMultiplicity(products, keep);
  }

  /** The search box and the status filter never change the alert: a
      product hidden from the list still counts. */
  lemma AlertIgnoresSearchAndFilter(products: seq<Product>, now: int, dates: Dates,
                                    query1: string, filter1: string, query2: string, filter2: string)
    ensures Render(products, now, dates, query1, filter1).alert == Render(products, now, dates, query2, filter2).alert
    ensures Render(products, now, dates, query1, filter1).alert == Summarize(products, now, dates)
  {
  }

  /** An empty collection shows an empty list and no alert. */
  lemma EmptyCollection(now: int, dates: Dates, query: string, filter: string)
    ensures Render([], now, dates, query, filter) == Screen([], NoAlert)
  {
    assert SortBy([], ExpiryKey(dates)) == [];
  }
}
