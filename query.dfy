/**
  The query layer behind the three routes: sort by original date and page,
  filter by an inclusive date range, look up one record by identifier. Every
  query is a function of a snapshot of the cache, so none can change it.
*/
module Query {
  import opened Wrappers
  import opened Seqs
  import opened Feed

  datatype Order = Asc | Desc

  /** A list answer, or the validation error the route reports with status 400. */
  datatype Reply = Ok(items: seq<Record>) | Invalid(message: string)

  /** The answer of the identifier route: the record, or "not found" (status 404). */
  datatype Lookup = Found(record: Record) | NotFound

  const DefaultStart: nat := 0
  const DefaultLimit: nat := 20
  const DefaultSort := "asc"
  const BadSortMessage := "Некорректное значение параметра sort. Используйте \"asc\" или \"desc\"."
  const MissingDatesMessage := "Параметры startDate и endDate обязательны."
  const BadDateMessage := "Некорректный формат даты."

  /** Only the two literals name an order; anything else is rejected, never defaulted. */
  function ParseOrder(sort: string): (o: Option<Order>)
    ensures o == Some(Asc) <==> sort == "asc"
    ensures o == Some(Desc) <==> sort == "desc"
    ensures o.None? <==> sort != "asc" && sort != "desc"
  {
    if sort == "asc" then Some(Asc)
    else if sort == "desc" then Some(Desc)
    else None
  }

  /** `new Date(r.originalDate)`: the instant of the raw date, None for an Invalid Date. */
  function DateOf(r: Record, instantOf: string -> Option<int>): Option<int> {
    instantOf(r.originalDate)
  }

  /**
    Whether a record dated `a` may come before one dated `b`: chronologically
    (earliest first for Asc, latest first for Desc) among valid instants; an
    invalid date goes after every valid one.
  */
  predicate InOrder(order: Order, a: Option<int>, b: Option<int>) {
    match (a, b)
    case (Some(x), Some(y)) => if order == Asc then x <= y else y <= x
    case (Some(_), None) => true
    case (None, Some(_)) => false
    case (None, None) => true
  }

  lemma InOrderTransitive(order: Order, a: Option<int>, b: Option<int>, c: Option<int>)
    requires InOrder(order, a, b) && InOrder(order, b, c)
    ensures InOrder(order, a, c)
  {
  }

  lemma InOrderTotal(order: Order, a: Option<int>, b: Option<int>)
    ensures InOrder(order, a, b) || InOrder(order, b, a)
  {
  }

  ghost predicate SortedBy(order: Order, s: seq<Record>, instantOf: string -> Option<int>) {
    forall i, j :: 0 <= i < j < |s| ==> InOrder(order, DateOf(s[i], instantOf), DateOf(s[j], instantOf))
  }

  /** Puts `r` before the first element of `s` it may precede, so it stays ahead of records with the same date. */
  function Insert(r: Record, s: seq<Record>, order: Order, instantOf: string -> Option<int>): (t: seq<Record>)
    ensures |t| == |s| + 1
    ensures multiset(t) == multiset(s) + multiset{r}
    decreases |s|
  {
    if s == [] || InOrder(order, DateOf(r, instantOf), DateOf(s[0], instantOf)) then [r] + s
    else
      assert s == [s[0]] + s[1..];
      [s[0]] + Insert(r, s[1..], order, instantOf)
  }

  /** The copy-then-sort of the `/items` route, as a stable sort on the original date. */
  function SortByDate(s: seq<Record>, order: Order, instantOf: string -> Option<int>): (t: seq<Record>)
    ensures |t| == |s|
    ensures multiset(t) == multiset(s)
    decreases |s|
  {
    if s == [] then []
    else
      assert s == [s[0]] + s[1..];
      Insert(s[0], SortByDate(s[1..], order, instantOf), order, instantOf)
  }

  lemma {:induction false} InsertKeepsSorted(r: Record, s: seq<Record>, order: Order, instantOf: string -> Option<int>)
    requires SortedBy(order, s, instantOf)
    ensures SortedBy(order, Insert(r, s, order, instantOf), instantOf)
    decreases |s|
  {
    if s == [] || InOrder(order, DateOf(r, instantOf), DateOf(s[0], instantOf)) {
      forall j | 0 < j < |s|
        ensures InOrder(order, DateOf(r, instantOf), DateOf(s[j], instantOf))
      {
        InOrderTransitive(order, DateOf(r, instantOf), DateOf(s[0], instantOf), DateOf(s[j], instantOf));
      }
      ConsSorted(r, s, order, instantOf);
    } else {
      var rest := s[1..];
      InsertKeepsSorted(r, rest, order, instantOf);
      var u := Insert(r, rest, order, instantOf);
      forall j | 0 <= j < |u|
        ensures InOrder(order, DateOf(s[0], instantOf), DateOf(u[j], instantOf))
      {
        assert u[j] in multiset(u);
        if u[j] == r {
          InOrderTotal(order, DateOf(r, instantOf), DateOf(s[0], instantOf));
        } else {
          assert u[j] in multiset(rest);
          var k :| 0 <= k < |rest| && rest[k] == u[j];
          assert s[k + 1] == u[j];
        }
      }
      ConsSorted(s[0], u, order, instantOf);
    }
  }

  /** A record that may precede every element of a sorted list may head it. */
  lemma ConsSorted(x: Record, u: seq<Record>, order: Order, instantOf: string -> Option<int>)
    requires SortedBy(order, u, instantOf)
    requires forall j :: 0 <= j < |u| ==> InOrder(order, DateOf(x, instantOf), DateOf(u[j], instantOf))
    ensures SortedBy(order, [x] + u, instantOf)
  {
    var t := [x] + u;
    forall i, j | 0 <= i < j < |t|
      ensures InOrder(order, DateOf(t[i], instantOf), DateOf(t[j], instantOf))
    {
      assert t[j] == u[j - 1];
      if i > 0 {
        assert t[i] == u[i - 1];
      }
    }
  }

  /** The sorted copy is ordered by date in the requested direction. */
  lemma {:induction false} SortByDateIsSorted(s: seq<Record>, order: Order, instantOf: string -> Option<int>)
    ensures SortedBy(order, SortByDate(s, order, instantOf), instantOf)
    decreases |s|
  {
    if s != [] {
      SortByDateIsSorted(s[1..], order, instantOf);
      InsertKeepsSorted(s[0], SortByDate(s[1..], order, instantOf), order, instantOf);
    }
  }

  /** Selects the records dated exactly `d`. */
  function DatedAt(d: Option<int>, instantOf: string -> Option<int>): Record -> bool {
    r => DateOf(r, instantOf) == d
  }

  lemma {:induction false} InsertFilterDatedAt(r: Record, s: seq<Record>, order: Order, instantOf: string -> Option<int>, d: Option<int>)
    ensures Filter(Insert(r, s, order, instantOf), DatedAt(d, instantOf))
         == (if DateOf(r, instantOf) == d then [r] else []) + Filter(s, DatedAt(d, instantOf))
    decreases |s|
  {
    var p := DatedAt(d, instantOf);
    if s == [] || InOrder(order, DateOf(r, instantOf), DateOf(s[0], instantOf)) {
      FilterCons(r, s, p);
    } else {
      // r may not precede s[0], so the two dates differ and at most one of them is d
      assert DateOf(r, instantOf) != DateOf(s[0], instantOf);
      var rest := s[1..];
      var mine := if DateOf(r, instantOf) == d then [r] else [];
      var first := if p(s[0]) then [s[0]] else [];
      InsertFilterDatedAt(r, rest, order, instantOf, d);
      FilterCons(s[0], Insert(r, rest, order, instantOf), p);
      FilterCons(s[0], rest, p);
      calc {
        Filter(Insert(r, s, order, instantOf), p);
        Filter([s[0]] + Insert(r, rest, order, instantOf), p);
        first + Filter(Insert(r, rest, order, instantOf), p);
        first + (mine + Filter(rest, p));
        { SwapAroundEmpty(first, mine, Filter(rest, p)); }
        mine + (first + Filter(rest, p));
        { assert [s[0]] + rest == s; }
        mine + Filter(s, p);
      }
    }
  }

  /** The sort is stable: records with the same date keep their relative order. */
  lemma {:induction false} SortByDateIsStable(s: seq<Record>, order: Order, instantOf: string -> Option<int>, d: Option<int>)
    ensures Filter(SortByDate(s, order, instantOf), DatedAt(d, instantOf)) == Filter(s, DatedAt(d, instantOf))
    decreases |s|
  {
    if s != [] {
      var rest := s[1..];
      SortByDateIsStable(rest, order, instantOf, d);
      InsertFilterDatedAt(s[0], SortByDate(rest, order, instantOf), order, instantOf, d);
      FilterCons(s[0], rest, DatedAt(d, instantOf));
      assert [s[0]] + rest == s;
    }
  }

  /** Where `Insert` puts `r`: after every element it may not precede, before the first one it may. */
  lemma {:induction false} InsertSplits(r: Record, s: seq<Record>, order: Order, instantOf: string -> Option<int>)
    returns (k: nat)
    ensures k <= |s|
    ensures Insert(r, s, order, instantOf) == s[..k] + [r] + s[k..]
    ensures forall i :: 0 <= i < k ==> !InOrder(order, DateOf(r, instantOf), DateOf(s[i], instantOf))
    ensures k < |s| ==> InOrder(order, DateOf(r, instantOf), DateOf(s[k], instantOf))
    decreases |s|
  {
    if s == [] || InOrder(order, DateOf(r, instantOf), DateOf(s[0], instantOf)) {
      k := 0;
      assert s[..0] + [r] + s[0..] == [r] + s;
    } else {
      var rest := s[1..];
      var k' := InsertSplits(r, rest, order, instantOf);
      k := k' + 1;
      SplitShift(s, r, k);
    }
  }

  /** Splitting `s` at `k` and splitting its tail at `k - 1` agree. */
  lemma SplitShift(s: seq<Record>, r: Record, k: nat)
    requires 0 < k <= |s|
    ensures s[..k] + [r] + s[k..] == [s[0]] + (s[1..][..k - 1] + [r] + s[1..][k - 1..])
  {
    assert s[..k] == [s[0]] + s[1..][..k - 1];
    assert s[k..] == s[1..][k - 1..];
  }

  /** Conversely, a split point with those two properties is where `Insert` puts `r`. */
  lemma {:induction false} InsertAt(r: Record, s: seq<Record>, order: Order, instantOf: string -> Option<int>, k: nat)
    requires k <= |s|
    requires forall i :: 0 <= i < k ==> !InOrder(order, DateOf(r, instantOf), DateOf(s[i], instantOf))
    requires k < |s| ==> InOrder(order, DateOf(r, instantOf), DateOf(s[k], instantOf))
    ensures Insert(r, s, order, instantOf) == s[..k] + [r] + s[k..]
    decreases k
  {
    if k == 0 {
      assert s[..0] + [r] + s[0..] == [r] + s;
    } else {
      var rest := s[1..];
      assert !InOrder(order, DateOf(r, instantOf), DateOf(s[0], instantOf));
      assert Insert(r, s, order, instantOf) == [s[0]] + Insert(r, rest, order, instantOf);
      InsertAt(r, rest, order, instantOf, k - 1);
      SplitShift(s, r, k);
    }
  }

  /** Every record has a valid date and no two share one. */
  ghost predicate DistinctDates(s: seq<Record>, instantOf: string -> Option<int>) {
    && (forall i :: 0 <= i < |s| ==> DateOf(s[i], instantOf).Some?)
    && (forall i, j :: 0 <= i < j < |s| ==> DateOf(s[i], instantOf) != DateOf(s[j], instantOf))
  }

  /** Inserting into an ascending list and reversing is inserting into the reversed, descending list. */
  lemma InsertReversed(r: Record, u: seq<Record>, instantOf: string -> Option<int>)
    requires SortedBy(Asc, u, instantOf)
    requires DateOf(r, instantOf).Some?
    requires forall i :: 0 <= i < |u| ==> DateOf(u[i], instantOf).Some? && DateOf(u[i], instantOf) != DateOf(r, instantOf)
    ensures Insert(r, Reverse(u), Desc, instantOf) == Reverse(Insert(r, u, Asc, instantOf))
  {
    var k := InsertSplits(r, u, Asc, instantOf);
    AscendingSplit(r, u, instantOf, k);
    InsertIntoReversed(r, u, Reverse(u), instantOf, k);
    ReverseAroundSplit(u, r, k);
  }

  /**
    In an ascending list of distinct valid dates, the split point of an ascending
    insertion separates the records dated before `r` from those dated after it.
  */
  lemma AscendingSplit(r: Record, u: seq<Record>, instantOf: string -> Option<int>, k: nat)
    requires SortedBy(Asc, u, instantOf)
    requires DateOf(r, instantOf).Some?
    requires forall i :: 0 <= i < |u| ==> DateOf(u[i], instantOf).Some? && DateOf(u[i], instantOf) != DateOf(r, instantOf)
    requires k <= |u|
    requires forall i :: 0 <= i < k ==> !InOrder(Asc, DateOf(r, instantOf), DateOf(u[i], instantOf))
    requires k < |u| ==> InOrder(Asc, DateOf(r, instantOf), DateOf(u[k], instantOf))
    ensures forall i :: 0 <= i < |u| ==> (InOrder(Desc, DateOf(r, instantOf), DateOf(u[i], instantOf)) <==> i < k)
  {
    forall i | k < i < |u|
      ensures !InOrder(Desc, DateOf(r, instantOf), DateOf(u[i], instantOf))
    {
      assert InOrder(Asc, DateOf(u[k], instantOf), DateOf(u[i], instantOf));
    }
  }

  /** A descending insertion into `v`, the reverse of `u`, splits it `|u| - k` from the front. */
  lemma InsertIntoReversed(r: Record, u: seq<Record>, v: seq<Record>, instantOf: string -> Option<int>, k: nat)
    requires k <= |u| == |v|
    requires forall i :: 0 <= i < |v| ==> v[i] == u[|u| - 1 - i]
    requires forall i :: 0 <= i < |u| ==> (InOrder(Desc, DateOf(r, instantOf), DateOf(u[i], instantOf)) <==> i < k)
    ensures Insert(r, v, Desc, instantOf) == v[..|u| - k] + [r] + v[|u| - k..]
  {
    forall i | 0 <= i < |u| - k
      ensures !InOrder(Desc, DateOf(r, instantOf), DateOf(v[i], instantOf))
    {
      assert v[i] == u[|u| - 1 - i];
    }
    if k > 0 {
      assert v[|u| - k] == u[k - 1];
    }
    InsertAt(r, v, Desc, instantOf, |u| - k);
  }

  /**
    With distinct valid dates, the descending sort is the ascending sort read
    backwards. (With two records on the same date it is not: see
    `TiedDatesBreakReversal`.)
  */
  lemma {:induction false} DescIsReversedAsc(s: seq<Record>, instantOf: string -> Option<int>)
    requires DistinctDates(s, instantOf)
    ensures SortByDate(s, Desc, instantOf) == Reverse(SortByDate(s, Asc, instantOf))
    decreases |s|
  {
    if s != [] {
      var t := s[1..];
      assert DistinctDates(t, instantOf) by {
        assert forall i :: 0 <= i < |t| ==> t[i] == s[i + 1];
      }
      DescIsReversedAsc(t, instantOf);
      var u := SortByDate(t, Asc, instantOf);
      SortByDateIsSorted(t, Asc, instantOf);
      PermutedTailDatesDiffer(s, u, instantOf);
      InsertReversed(s[0], u, instantOf);
    }
  }

  /** Any reordering of the tail of `s` keeps dates that are valid and unlike the head's. */
  lemma PermutedTailDatesDiffer(s: seq<Record>, u: seq<Record>, instantOf: string -> Option<int>)
    requires s != [] && DistinctDates(s, instantOf)
    requires multiset(u) == multiset(s[1..])
    ensures forall i :: 0 <= i < |u| ==> DateOf(u[i], instantOf).Some? && DateOf(u[i], instantOf) != DateOf(s[0], instantOf)
  {
    var t := s[1..];
    forall i | 0 <= i < |u|
      ensures DateOf(u[i], instantOf).Some? && DateOf(u[i], instantOf) != DateOf(s[0], instantOf)
    {
      assert u[i] in multiset(u);
      assert u[i] in multiset(t);
      var k :| 0 <= k < |t| && t[k] == u[i];
      assert s[k + 1] == u[i];
    }
  }

  /** Two records of the same date: the stable sort keeps them in cache order both ways. */
  lemma TiedDatesBreakReversal()
    ensures
      var a := Record("a", "", "", "", "", "", "", "1");
      var b := Record("b", "", "", "", "", "", "", "1");
      var instantOf := (raw: string) => Some(0);
      SortByDate([a, b], Desc, instantOf) != Reverse(SortByDate([a, b], Asc, instantOf))
  {
  }

  /** `Array.prototype.slice(from, to)` for non-negative bounds. */
  function Slice(s: seq<Record>, from: nat, to: nat): (r: seq<Record>)
    ensures |r| == if from < Min(to, |s|) then Min(to, |s|) - from else 0
    ensures forall i :: 0 <= i < |r| ==> r[i] == s[from + i]
  {
    var end := Min(to, |s|);
    if from < end then s[from..end] else []
  }

  /**
    The `/items` route: `start`, `limit` and `sort` take their defaults when absent;
    a `sort` other than the two literals is a validation error; otherwise the page
    of the sorted copy that starts at `start` and holds at most `limit` records.
  */
  function ListItems(cache: seq<Record>, start: Option<nat>, limit: Option<nat>, sort: Option<string>,
                     instantOf: string -> Option<int>): (r: Reply)
    ensures r.Invalid? <==> sort.Some? && sort.value != "asc" && sort.value != "desc"
    ensures r.Invalid? ==> r.message == BadSortMessage
    ensures r.Ok? ==> |r.items| <= limit.GetOr(DefaultLimit)
    ensures r.Ok? && start.GetOr(DefaultStart) >= |cache| ==> r.items == []
    ensures r.Ok? ==> multiset(r.items) <= multiset(cache)
    ensures r.Ok? ==> ParseOrder(sort.GetOr(DefaultSort)).Some?
    ensures r.Ok? ==>
      var sorted := SortByDate(cache, ParseOrder(sort.GetOr(DefaultSort)).value, instantOf);
      var from := start.GetOr(DefaultStart);
      r.items == if from < |sorted| then sorted[from..Min(from + limit.GetOr(DefaultLimit), |sorted|)] else []
  {
    var order := ParseOrder(sort.GetOr(DefaultSort));
    if order.None? then Invalid(BadSortMessage)
    else
      var sorted := SortByDate(cache, order.value, instantOf);
      var from := start.GetOr(DefaultStart);
      var page := Slice(sorted, from, from + limit.GetOr(DefaultLimit));
      assert page == if from < |sorted| then sorted[from..Min(from + limit.GetOr(DefaultLimit), |sorted|)] else [];
      SubsliceMultiset(sorted, from, Min(from + limit.GetOr(DefaultLimit), |sorted|));
      Ok(page)
  }

  lemma SubsliceMultiset(s: seq<Record>, from: nat, to: nat)
    requires to <= |s|
    ensures from < to ==> multiset(s[from..to]) <= multiset(s)
  {
    if from < to {
      assert s == s[..from] + s[from..to] + s[to..];
    }
  }

  /** Every page is itself in the requested order. */
  lemma PageIsSorted(cache: seq<Record>, start: Option<nat>, limit: Option<nat>, sort: Option<string>,
                     instantOf: string -> Option<int>)
    requires ListItems(cache, start, limit, sort, instantOf).Ok?
    ensures SortedBy(ParseOrder(sort.GetOr(DefaultSort)).value, ListItems(cache, start, limit, sort, instantOf).items, instantOf)
  {
    var order := ParseOrder(sort.GetOr(DefaultSort)).value;
    var sorted := SortByDate(cache, order, instantOf);
    var from := start.GetOr(DefaultStart);
    SortByDateIsSorted(cache, order, instantOf);
    if from < |sorted| {
      SortedSlice(sorted, order, instantOf, from, Min(from + limit.GetOr(DefaultLimit), |sorted|));
    }
  }

  /** A contiguous piece of a sorted list is sorted. */
  lemma SortedSlice(s: seq<Record>, order: Order, instantOf: string -> Option<int>, from: nat, to: nat)
    requires from <= to <= |s|
    requires SortedBy(order, s, instantOf)
    ensures SortedBy(order, s[from..to], instantOf)
  {
    var w := s[from..to];
    forall i, j | 0 <= i < j < |w|
      ensures InOrder(order, DateOf(w[i], instantOf), DateOf(w[j], instantOf))
    {
      assert w[i] == s[from + i] && w[j] == s[from + j];
    }
  }

  /** `!startDate || !endDate`: a parameter that is absent or empty counts as missing. */
  predicate Missing(param: Option<string>) {
    param.None? || param.value == ""
  }

  /**
    `itemDate >= start && itemDate <= end` on Date objects: both ends inclusive,
    and false as soon as any of the three is an Invalid Date.
  */
  function InRange(low: Option<int>, high: Option<int>, instantOf: string -> Option<int>): Record -> bool {
    r => DateOf(r, instantOf).Some? && low.Some? && high.Some?
      && low.value <= DateOf(r, instantOf).value <= high.value
  }

  /**
    The `/items/date` route as written: both boundaries are required; they are
    parsed with `parseBoundary` (`parse(s, 'dd.MM.yyyy', …)`), which yields an
    Invalid Date instead of throwing, so a bad boundary only makes every
    comparison false.
  */
  function FilterByDate(cache: seq<Record>, startDate: Option<string>, endDate: Option<string>,
                        parseBoundary: string -> Option<int>, instantOf: string -> Option<int>): (r: Reply)
    ensures r.Invalid? <==> Missing(startDate) || Missing(endDate)
    ensures r.Invalid? ==> r.message == MissingDatesMessage
    ensures r.Ok? ==> startDate.Some? && endDate.Some?
    ensures r.Ok? ==> multiset(r.items) <= multiset(cache)
    ensures r.Ok? ==>
      var low, high := parseBoundary(startDate.value), parseBoundary(endDate.value);
      forall i :: 0 <= i < |r.items| ==>
        && r.items[i] in cache
        && DateOf(r.items[i], instantOf).Some? && low.Some? && high.Some?
        && low.value <= DateOf(r.items[i], instantOf).value <= high.value
    ensures r.Ok? ==>
      var low, high := parseBoundary(startDate.value), parseBoundary(endDate.value);
      forall i :: 0 <= i < |cache| ==>
        (DateOf(cache[i], instantOf).Some? && low.Some? && high.Some?
         && low.value <= DateOf(cache[i], instantOf).value <= high.value) ==> cache[i] in r.items
  {
    if Missing(startDate) || Missing(endDate) then Invalid(MissingDatesMessage)
    else
      var keep := InRange(parseBoundary(startDate.value), parseBoundary(endDate.value), instantOf);
      FilterMembers(cache, keep);
      FilterPartition(cache, keep);
      Ok(Filter(cache, keep))
  }

  /** An unparseable boundary is not reported: the route answers with an empty list. */
  lemma {:induction false} BadBoundaryAnswersEmpty(cache: seq<Record>, startDate: string, endDate: string,
                                                   parseBoundary: string -> Option<int>, instantOf: string -> Option<int>)
    requires startDate != "" && endDate != ""
    requires parseBoundary(startDate).None? || parseBoundary(endDate).None?
    ensures FilterByDate(cache, Some(startDate), Some(endDate), parseBoundary, instantOf) == Ok([])
  {
    FilterNothing(cache, InRange(parseBoundary(startDate), parseBoundary(endDate), instantOf));
  }

  /**
    The route as its error message intends it: a boundary that does not parse is
    a validation error; otherwise the same answer as `FilterByDate`.
  */
  function FilterByDateStrict(cache: seq<Record>, startDate: Option<string>, endDate: Option<string>,
                              parseBoundary: string -> Option<int>, instantOf: string -> Option<int>): (r: Reply)
    ensures Missing(startDate) || Missing(endDate) ==> r == Invalid(MissingDatesMessage)
    ensures !Missing(startDate) && !Missing(endDate)
      && (parseBoundary(startDate.value).None? || parseBoundary(endDate.value).None?)
      ==> r == Invalid(BadDateMessage)
    ensures !Missing(startDate) && !Missing(endDate)
      && parseBoundary(startDate.value).Some? && parseBoundary(endDate.value).Some?
      ==> r == FilterByDate(cache, startDate, endDate, parseBoundary, instantOf)
    ensures r.Ok? ==> startDate.Some? && endDate.Some?
    ensures r.Ok? ==> parseBoundary(startDate.value).Some? && parseBoundary(endDate.value).Some?
  {
    if Missing(startDate) || Missing(endDate) then Invalid(MissingDatesMessage)
    else if parseBoundary(startDate.value).None? || parseBoundary(endDate.value).None? then Invalid(BadDateMessage)
    else FilterByDate(cache, startDate, endDate, parseBoundary, instantOf)
  }

  /**
    With boundaries that parse, the route's answer and the records outside the
    range together make up the cache exactly.
  */
  lemma RangePartitionsCache(cache: seq<Record>, startDate: string, endDate: string, low: int, high: int,
                             parseBoundary: string -> Option<int>, instantOf: string -> Option<int>)
    requires startDate != "" && endDate != ""
    requires parseBoundary(startDate) == Some(low) && parseBoundary(endDate) == Some(high)
    ensures FilterByDate(cache, Some(startDate), Some(endDate), parseBoundary, instantOf).Ok?
    ensures
      var kept := FilterByDate(cache, Some(startDate), Some(endDate), parseBoundary, instantOf).items;
      var dropped := Filter(cache, Not(InRange(Some(low), Some(high), instantOf)));
      && multiset(kept) + multiset(dropped) == multiset(cache)
      && |kept| + |dropped| == |cache|
  {
    FilterPartition(cache, InRange(Some(low), Some(high), instantOf));
  }

  /** The range filter keeps cache order: filtering a concatenation concatenates the answers. */
  lemma RangeFilterKeepsOrder(a: seq<Record>, b: seq<Record>, startDate: Option<string>, endDate: Option<string>,
                              parseBoundary: string -> Option<int>, instantOf: string -> Option<int>)
    requires !Missing(startDate) && !Missing(endDate)
    ensures FilterByDate(a + b, startDate, endDate, parseBoundary, instantOf).items
         == FilterByDate(a, startDate, endDate, parseBoundary, instantOf).items
          + FilterByDate(b, startDate, endDate, parseBoundary, instantOf).items
  {
    FilterConcat(a, b, InRange(parseBoundary(startDate.value), parseBoundary(endDate.value), instantOf));
  }

  /** The `/items/uuid/:uuid` route: the first record whose id is exactly `id`. */
  function FindById(cache: seq<Record>, id: string): (r: Lookup)
    ensures r.NotFound? <==> forall i :: 0 <= i < |cache| ==> cache[i].id != id
    ensures r.Found? ==> exists i :: 0 <= i < |cache| && cache[i] == r.record && r.record.id == id
                                  && forall j :: 0 <= j < i ==> cache[j].id != id
    decreases |cache|
  {
    if cache == [] then NotFound
    else if cache[0].id == id then Found(cache[0])
    else
      var r := FindById(cache[1..], id);
      assert forall i :: 1 <= i < |cache| ==> cache[i] == cache[1..][i - 1];
      r
  }

  /** With distinct ids, each record is found by its own id. */
  lemma FindByIdUnique(cache: seq<Record>, k: nat)
    requires forall i, j :: 0 <= i < j < |cache| ==> cache[i].id != cache[j].id
    requires k < |cache|
    ensures FindById(cache, cache[k].id) == Found(cache[k])
  {
  }

  /**
    After ingestion with distinct identifiers, looking up the identifier handed
    to item k answers record k, and an identifier never handed out is not found.
  */
  lemma IngestedRecordsFoundById(items: seq<RawItem>, ids: seq<string>, env: Env, records: seq<Record>, id: string)
    requires |items| == |ids| == |records|
    requires forall i :: 0 <= i < |records| ==> Normalized(items[i], ids[i], env, records[i])
    requires DistinctIds(ids)
    ensures forall k :: 0 <= k < |ids| ==> FindById(records, ids[k]) == Found(records[k])
    ensures id !in ids ==> FindById(records, id) == NotFound
  {
    IngestKeepsIdsDistinct(items, ids, env, records);
    forall k | 0 <= k < |ids|
      ensures FindById(records, ids[k]) == Found(records[k])
    {
      assert Normalized(items[k], ids[k], env, records[k]);
      FindByIdUnique(records, k);
    }
    if id !in ids {
      forall i | 0 <= i < |records|
        ensures records[i].id != id
      {
        assert Normalized(items[i], ids[i], env, records[i]);
      }
    }
  }
}
