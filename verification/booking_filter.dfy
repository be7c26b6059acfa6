/**
 Listing helpers over a booking list (`BookingFilter`): status and text
 filtering, the four sort orders, search suggestions and per-status counts.
 */
module BookingFilter {
  import opened Wrappers
  import opened Text
  import opened Seqs
  import opened Sorting
  import opened BookingStatus
  import opened Booking
  import opened BookingStore

  // ---------------------------------------------------------------------
  // Text search
  // ---------------------------------------------------------------------

  /** Lower-casing never turns a trimmed character into a kept one or back. */
  lemma {:induction false} LowerKeepsBlankness(s: string)
    ensures IsBlank(ToLower(s)) <==> IsBlank(s)
  {
    var t := ToLower(s);
    assert (forall k :: 0 <= k < |t| ==> IsJavaTrimmed(t[k])) <==> (forall k :: 0 <= k < |s| ==> IsJavaTrimmed(s[k])) by {
      forall k | 0 <= k < |s| ensures IsJavaTrimmed(t[k]) <==> IsJavaTrimmed(s[k]) {
        assert t[k] == ToLowerChar(s[k]);
      }
    }
    BlankIffAllTrimmed(s);
    BlankIffAllTrimmed(t);
  }

  /**
   The query `filterBookings` searches for: lower-cased and trimmed, or
   None when the query is null or blank and no text filter applies.
   */
  function PreparedQuery(searchQuery: Option<string>): (r: Option<string>)
    ensures r.None? <==> searchQuery.None? || IsBlank(searchQuery.value)
    ensures r.Some? ==> |r.value| > 0 && r.value == JavaTrim(ToLower(searchQuery.value))
  {
    if searchQuery.None? || IsBlank(searchQuery.value) then None
    else
      LowerKeepsBlankness(searchQuery.value);
      Some(JavaTrim(ToLower(searchQuery.value)))
  }

  /** Zero-padded rendering of a number to at least `width` characters. */
  function PadLeft(s: string, width: nat): (r: string)
    ensures |r| == if |s| >= width then |s| else width
    decreases width - |s|
  {
    if |s| >= width then s else PadLeft("0" + s, width)
  }

  /** Padding a string of digits with zeros keeps it a string of digits of the same value. */
  lemma {:induction false} PadLeftReadsSame(s: string, width: nat)
    requires forall i :: 0 <= i < |s| ==> IsDigit(s[i])
    ensures forall i :: 0 <= i < |PadLeft(s, width)| ==> IsDigit(PadLeft(s, width)[i])
    ensures DigitsValue(PadLeft(s, width)) == DigitsValue(s)
    decreases width - |s|
  {
    if |s| < width {
      assert forall i :: 0 <= i < |"0" + s| ==> IsDigit(("0" + s)[i]);
      PadLeftReadsSame("0" + s, width);
      LeadingZeroReadsSame(s);
    }
  }

  /**
   `DateUtils.formatDate`: the pattern "dd/MM/yyyy". The year is printed as
   year-of-era, zero-padded to four digits and with a '+' beyond 9999.
   */
  function FormatDate(d: Date): (r: string)
    ensures 1 <= d.day <= 99 && 1 <= d.month <= 99 && 1 <= d.year <= 9999 ==> |r| == 10 && r[2] == '/' && r[5] == '/'
  {
    var yearOfEra: nat := if d.year >= 1 then d.year else 1 - d.year;
    var yearText := if yearOfEra > 9999 then "+" + NatToString(yearOfEra) else PadLeft(NatToString(yearOfEra), 4);
    var r := PadLeft(IntToString(d.day), 2) + "/" + PadLeft(IntToString(d.month), 2) + "/" + yearText;
    if 1 <= d.day <= 99 && 1 <= d.month <= 99 && 1 <= d.year <= 9999 then
      assert Pow10(2) == 100 && Pow10(4) == 10000;
      NatToStringShort(d.day, 2);
      NatToStringShort(d.month, 2);
      NatToStringShort(d.year, 4);
      r
    else r
  }

  /**
   A date with a one- or two-digit day and month and a year from 1 to 9999
   is written as "dd/MM/yyyy", and its three fields read back as the date.
   */
  lemma {:induction false} FormatDateReadsBack(d: Date)
    requires 1 <= d.day <= 99 && 1 <= d.month <= 99 && 1 <= d.year <= 9999
    ensures var r := FormatDate(d);
      && |r| == 10 && r[2] == '/' && r[5] == '/'
      && (forall i :: 0 <= i < 10 && i != 2 && i != 5 ==> IsDigit(r[i]))
      && DigitsValue(r[..2]) == d.day
      && DigitsValue(r[3..5]) == d.month
      && DigitsValue(r[6..]) == d.year
  {
    var r := FormatDate(d);
    var dd, mm, yyyy := PadLeft(IntToString(d.day), 2), PadLeft(IntToString(d.month), 2),
                        PadLeft(NatToString(d.year), 4);
    assert Pow10(2) == 100 && Pow10(4) == 10000;
    NatToStringShort(d.day, 2);
    NatToStringShort(d.month, 2);
    NatToStringShort(d.year, 4);
    PadLeftReadsSame(IntToString(d.day), 2);
    PadLeftReadsSame(IntToString(d.month), 2);
    PadLeftReadsSame(NatToString(d.year), 4);
    NatToStringReadsBack(d.day);
    NatToStringReadsBack(d.month);
    NatToStringReadsBack(d.year);
    assert r == dd + "/" + mm + "/" + yyyy;
    assert r[..2] == dd && r[3..5] == mm && r[6..] == yyyy;
  }

  /** The short booking number shown for a booking: "BK" and the decimal timestamp without its first eight digits. */
  function ShortIdText(timestamp: int): (r: Option<string>)
    ensures r.None? <==> |IntToString(timestamp)| < 8
    ensures r.Some? ==> IsPrefix("BK", r.value) && |r.value| == |IntToString(timestamp)| - 6
  {
    var digits := IntToString(timestamp);
    if |digits| < 8 then None else Some("BK" + digits[8..])
  }

  /** A timestamp of at least 10^7 has the eight digits the short id needs. */
  lemma {:induction false} LongTimestampHasShortId(timestamp: int)
    requires timestamp >= Pow10(7)
    ensures ShortIdText(timestamp).Some?
  {
    NatToStringLength(timestamp, 7);
  }

  /**
   `matchesSearchQuery(booking, query)`: the query is looked for, in this
   order, in the source, the destination, the short booking number, "source
   destination", the status name and the formatted travel date, all
   lower-cased. None stands for the exception `substring(8)` throws when the
   timestamp has fewer than eight digits, which only the third test reaches.
   */
  function MatchesSearchQuery(b: BookingRequest, query: string): (r: Option<bool>)
    ensures r.None? <==>
      && !Contains(ToLower(b.source), query)
      && !Contains(ToLower(b.destination), query)
      && ShortIdText(b.timestamp).None?
    ensures Contains(ToLower(b.source), query) || Contains(ToLower(b.destination), query) ==> r == Some(true)
    ensures r == Some(false) <==>
      && ShortIdText(b.timestamp).Some?
      && !Contains(ToLower(b.source), query)
      && !Contains(ToLower(b.destination), query)
      && !Contains(ToLower(ShortIdText(b.timestamp).value), query)
      && !Contains(ToLower(b.source + " " + b.destination), query)
      && !Contains(ToLower(DisplayName(EffectiveStatus(b))), query)
      && !Contains(ToLower(FormatDate(b.travelDate)), query)
  {
    if Contains(ToLower(b.source), query) then Some(true)
    else if Contains(ToLower(b.destination), query) then Some(true)
    else
      match ShortIdText(b.timestamp)
      case None => None
      case Some(id) =>
        Some(|| Contains(ToLower(id), query)
             || Contains(ToLower(b.source + " " + b.destination), query)
             || Contains(ToLower(DisplayName(EffectiveStatus(b))), query)
             || Contains(ToLower(FormatDate(b.travelDate)), query))
  }

  /** Any piece of a string occurs in it. */
  lemma {:induction false} SliceIsContained(s: string, i: nat, j: nat)
    requires i <= j <= |s|
    ensures Contains(s, s[i..j])
  {
    ContainsIffOccurs(s, s[i..j]);
    assert IsPrefix(s[i..j], s[i..]);
  }

  /** Every piece of a booking's lower-cased source finds that booking. */
  lemma {:induction false} SourcePieceMatches(b: BookingRequest, i: nat, j: nat)
    requires i <= j <= |b.source|
    ensures MatchesSearchQuery(b, ToLower(b.source)[i..j]) == Some(true)
  {
    SliceIsContained(ToLower(b.source), i, j);
  }

  /** Every piece of a booking's lower-cased destination finds that booking. */
  lemma {:induction false} DestinationPieceMatches(b: BookingRequest, i: nat, j: nat)
    requires i <= j <= |b.destination|
    ensures MatchesSearchQuery(b, ToLower(b.destination)[i..j]) == Some(true)
  {
    SliceIsContained(ToLower(b.destination), i, j);
  }

  /** With a full-length timestamp, the lower-cased status name finds the booking. */
  lemma {:induction false} StatusNameMatches(b: BookingRequest)
    requires b.timestamp >= Pow10(7)
    ensures MatchesSearchQuery(b, ToLower(DisplayName(EffectiveStatus(b)))) == Some(true)
  {
    LongTimestampHasShortId(b.timestamp);
    ContainsItself(ToLower(DisplayName(EffectiveStatus(b))));
  }

  // ---------------------------------------------------------------------
  // Filtering
  // ---------------------------------------------------------------------

  /**
   Whether `filterBookings` keeps `b` for the prepared query and the status
   filter: a null booking status counts as Pending. None is the exception.
   */
  function Admits(b: BookingRequest, query: Option<string>, statusFilter: Option<Status>): (r: Option<bool>)
    ensures statusFilter.Some? && EffectiveStatus(b) != statusFilter.value ==> r == Some(false)
    ensures query.None? && (statusFilter.None? || EffectiveStatus(b) == statusFilter.value) ==> r == Some(true)
    ensures query.Some? && (statusFilter.None? || EffectiveStatus(b) == statusFilter.value) ==> r == MatchesSearchQuery(b, query.value)
  {
    if statusFilter.Some? && EffectiveStatus(b) != statusFilter.value then Some(false)
    else if query.None? then Some(true)
    else MatchesSearchQuery(b, query.value)
  }

  function Admitted(query: Option<string>, statusFilter: Option<Status>): BookingRequest -> bool {
    b => Admits(b, query, statusFilter) == Some(true)
  }

  /** The loop of `filterBookings` over an already prepared query. */
  function FilterAdmitted(bookings: seq<BookingRequest>, query: Option<string>, statusFilter: Option<Status>)
    : (r: Option<seq<BookingRequest>>)
    ensures r.None? <==> exists i :: 0 <= i < |bookings| && Admits(bookings[i], query, statusFilter).None?
    ensures r.Some? ==> r.value == Filter(bookings, Admitted(query, statusFilter))
  {
    if |bookings| == 0 then Some([])
    else
      var init, last := bookings[..|bookings| - 1], bookings[|bookings| - 1];
      assert bookings == init + [last];
      match FilterAdmitted(init, query, statusFilter)
      case None => None
      case Some(kept) =>
        match Admits(last, query, statusFilter)
        case None => None
        case Some(keep) => Some(if keep then kept + [last] else kept)
  }

  /**
   `filterBookings(bookings, searchQuery, statusFilter)`: the bookings, in
   order, that have the filtered status and match the query; None when a
   match test throws.
   */
  function FilterBookings(bookings: seq<BookingRequest>, searchQuery: Option<string>, statusFilter: Option<Status>)
    : (r: Option<seq<BookingRequest>>)
    ensures r.None? <==> exists i :: 0 <= i < |bookings| && Admits(bookings[i], PreparedQuery(searchQuery), statusFilter).None?
    ensures r.Some? ==> IsSubseq(r.value, bookings)
    ensures r.Some? && statusFilter.Some? ==> forall i :: 0 <= i < |r.value| ==> EffectiveStatus(r.value[i]) == statusFilter.value
    ensures r.Some? && PreparedQuery(searchQuery).Some? ==>
      forall i :: 0 <= i < |r.value| ==> MatchesSearchQuery(r.value[i], PreparedQuery(searchQuery).value) == Some(true)
  {
    var query := PreparedQuery(searchQuery);
    var r := FilterAdmitted(bookings, query, statusFilter);
    if r.Some? then
      assert forall i :: 0 <= i < |r.value| ==> Admits(r.value[i], query, statusFilter) == Some(true);
      r
    else r
  }

  /** Nothing the filters admit is dropped. */
  lemma {:induction false} FilterBookingsComplete(bookings: seq<BookingRequest>, searchQuery: Option<string>, statusFilter: Option<Status>, b: BookingRequest)
    requires FilterBookings(bookings, searchQuery, statusFilter).Some?
    requires b in bookings && Admits(b, PreparedQuery(searchQuery), statusFilter) == Some(true)
    ensures b in FilterBookings(bookings, searchQuery, statusFilter).value
  {
    FilterKeepsMatching(bookings, Admitted(PreparedQuery(searchQuery), statusFilter), b);
  }

  /** Without a status filter and with a null or blank query, the list comes back whole. */
  lemma {:induction false} NoCriteriaKeepsAll(bookings: seq<BookingRequest>, searchQuery: Option<string>)
    requires searchQuery.None? || IsBlank(searchQuery.value)
    ensures FilterBookings(bookings, searchQuery, None) == Some(bookings)
  {
    FilterAll(bookings, Admitted(None, None));
  }

  /** A status filter alone selects exactly what `getBookingsByStatus` selects. */
  lemma {:induction false} StatusFilterIsBookingsByStatus(bookings: seq<BookingRequest>, searchQuery: Option<string>, s: Status)
    requires searchQuery.None? || IsBlank(searchQuery.value)
    ensures FilterBookings(bookings, searchQuery, Some(s)) == Some(BookingsByStatus(bookings, s))
  {
    FilterSamePredicate(bookings, Admitted(None, Some(s)), HasStatus(s));
  }

  // ---------------------------------------------------------------------
  // Sorting
  // ---------------------------------------------------------------------

  datatype SortType = DateNewestFirst | DateOldestFirst | ByStatus | RouteAlphabetical

  /** `getStatusPriority`: the position of a status in the lifecycle listing, from 1. */
  function StatusPriority(s: Status): (p: int)
    ensures 1 <= p <= 5
    ensures s == Pending <==> p == 1
    ensures s == Cancelled <==> p == 5
  {
    match s
    case Pending => 1
    case Confirmed => 2
    case InProgress => 3
    case Completed => 4
    case Cancelled => 5
  }

  /** Distinct statuses get distinct priorities, and an earlier lifecycle stage a smaller one. */
  lemma {:induction false} PriorityOrdersStatuses(s: Status, t: Status)
    ensures StatusPriority(s) == StatusPriority(t) <==> s == t
    ensures Stage(s) < Stage(t) ==> StatusPriority(s) < StatusPriority(t)
  {
  }

  /** The "src → dst" label used by the route sort and the suggestions. */
  function RouteLabel(b: BookingRequest): string {
    b.source + " \U{2192} " + b.destination
  }

  /** `String.CASE_INSENSITIVE_ORDER` as "may come before". */
  function CaseInsensitiveLe(a: string, b: string): bool {
    CompareIgnoreCase(a, b) <= 0
  }

  lemma {:induction false} CaseInsensitiveIsPreorder()
    ensures Total(CaseInsensitiveLe) && Transitive(CaseInsensitiveLe)
  {
    forall a: string, b: string ensures CaseInsensitiveLe(a, b) || CaseInsensitiveLe(b, a) {
      CompareToAntisymmetric(ToLower(a), ToLower(b));
    }
    forall a: string, b: string, c: string | CaseInsensitiveLe(a, b) && CaseInsensitiveLe(b, c)
      ensures CaseInsensitiveLe(a, c)
    {
      CompareToTransitive(ToLower(a), ToLower(b), ToLower(c));
    }
  }

  /** The comparator of each sort type, as "compare(a, b) <= 0". */
  function Comparator(t: SortType): (BookingRequest, BookingRequest) -> bool {
    match t
    case DateNewestFirst => (a: BookingRequest, b: BookingRequest) => a.timestamp >= b.timestamp
    case DateOldestFirst => (a: BookingRequest, b: BookingRequest) => a.timestamp <= b.timestamp
    case ByStatus => (a: BookingRequest, b: BookingRequest) =>
      var pa, pb := StatusPriority(EffectiveStatus(a)), StatusPriority(EffectiveStatus(b));
      pa < pb || (pa == pb && a.timestamp >= b.timestamp)
    case RouteAlphabetical => (a: BookingRequest, b: BookingRequest) => CaseInsensitiveLe(RouteLabel(a), RouteLabel(b))
  }

  /** Each comparator orders every pair and is transitive, as `Collections.sort` requires. */
  lemma {:induction false} ComparatorIsPreorder(t: SortType)
    ensures Total(Comparator(t)) && Transitive(Comparator(t))
  {
    if t == RouteAlphabetical {
      CaseInsensitiveIsPreorder();
      forall a: BookingRequest, b: BookingRequest ensures Comparator(t)(a, b) || Comparator(t)(b, a) {
        assert CaseInsensitiveLe(RouteLabel(a), RouteLabel(b)) || CaseInsensitiveLe(RouteLabel(b), RouteLabel(a));
      }
      forall a: BookingRequest, b: BookingRequest, c: BookingRequest | Comparator(t)(a, b) && Comparator(t)(b, c)
        ensures Comparator(t)(a, c)
      {
        assert CaseInsensitiveLe(RouteLabel(a), RouteLabel(c));
      }
    }
  }

  /**
   `sortBookings(bookings, sortType)`: a reordered copy of the list, ordered
   by the comparator of the sort type (the input is a value and stays as it is).
   */
  function SortBookings(bookings: seq<BookingRequest>, t: SortType): (r: seq<BookingRequest>)
    ensures |r| == |bookings| && multiset(r) == multiset(bookings)
    ensures SortedBy(r, Comparator(t))
    ensures t == DateNewestFirst ==> forall i, j :: 0 <= i < j < |r| ==> r[i].timestamp >= r[j].timestamp
    ensures t == DateOldestFirst ==> forall i, j :: 0 <= i < j < |r| ==> r[i].timestamp <= r[j].timestamp
    ensures t == ByStatus ==> forall i, j :: 0 <= i < j < |r| ==>
      StatusPriority(EffectiveStatus(r[i])) <= StatusPriority(EffectiveStatus(r[j]))
    ensures t == ByStatus ==> forall i, j :: 0 <= i < j < |r| && EffectiveStatus(r[i]) == EffectiveStatus(r[j]) ==>
      r[i].timestamp >= r[j].timestamp
    ensures t == RouteAlphabetical ==> forall i, j :: 0 <= i < j < |r| ==>
      CompareIgnoreCase(RouteLabel(r[i]), RouteLabel(r[j])) <= 0
    // Stable, as `Collections.sort` is: bookings the comparator ties keep their input order.
    ensures forall k :: Filter(r, TiedWith(Comparator(t), k)) == Filter(bookings, TiedWith(Comparator(t), k))
  {
    ComparatorIsPreorder(t);
    SortIsSorted(bookings, Comparator(t));
    SortIsStable(bookings, Comparator(t));
    Sort(bookings, Comparator(t))
  }

  // ---------------------------------------------------------------------
  // Suggestions
  // ---------------------------------------------------------------------

  /** `x` is one of the texts a booking contributes to the suggestions. */
  predicate Suggests(b: BookingRequest, x: string) {
    x == b.source || x == b.destination || x == RouteLabel(b)
  }

  /** The suggestion list before sorting: each source, destination and route once, in first-seen order. */
  function CollectSuggestions(bookings: seq<BookingRequest>): (r: seq<string>)
    ensures Distinct(r)
    ensures forall x :: x in r <==> exists i :: 0 <= i < |bookings| && Suggests(bookings[i], x)
  {
    if |bookings| == 0 then []
    else
      var init, b := bookings[..|bookings| - 1], bookings[|bookings| - 1];
      var before := CollectSuggestions(init);
      var withSource := AddAbsent(before, b.source);
      var withDestination := AddAbsent(withSource, b.destination);
      var r := AddAbsent(withDestination, RouteLabel(b));
      CollectStep(bookings, init, before, withSource, withDestination, r);
      r
  }

  /** One booking's contribution extends the membership characterisation by that booking. */
  lemma {:induction false} CollectStep(all: seq<BookingRequest>, init: seq<BookingRequest>, before: seq<string>,
                    withSource: seq<string>, withDestination: seq<string>, r: seq<string>)
    requires |all| > 0 && init == all[..|all| - 1]
    requires forall x :: x in before <==> exists i :: 0 <= i < |init| && Suggests(init[i], x)
    requires withSource == AddAbsent(before, all[|all| - 1].source)
    requires withDestination == AddAbsent(withSource, all[|all| - 1].destination)
    requires r == AddAbsent(withDestination, RouteLabel(all[|all| - 1]))
    ensures forall x :: x in r <==> exists i :: 0 <= i < |all| && Suggests(all[i], x)
  {
    var b := all[|all| - 1];
    forall x ensures x in r <==> exists i :: 0 <= i < |all| && Suggests(all[i], x) {
      assert x in r <==> x in before || Suggests(b, x);
      if exists i :: 0 <= i < |all| && Suggests(all[i], x) {
        var i :| 0 <= i < |all| && Suggests(all[i], x);
        if i < |init| {
          assert init[i] == all[i];
        }
      }
      if x in before {
        var i :| 0 <= i < |init| && Suggests(init[i], x);
        assert init[i] == all[i];
      }
    }
  }

  /** Reordering keeps the members. */
  lemma {:induction false} PermutationSameMembers(s: seq<string>, t: seq<string>)
    requires multiset(s) == multiset(t)
    ensures forall x :: x in s <==> x in t
  {
    forall x ensures x in s <==> x in t {
      assert x in s <==> x in multiset(s);
      assert x in t <==> x in multiset(t);
    }
  }

  /** `getSearchSuggestions`: distinct, complete, and case-insensitively ordered. */
  function SearchSuggestions(bookings: seq<BookingRequest>): (r: seq<string>)
    ensures Distinct(r)
    ensures forall x :: x in r <==> exists i :: 0 <= i < |bookings| && Suggests(bookings[i], x)
    ensures forall i, j :: 0 <= i < j < |r| ==> CompareIgnoreCase(r[i], r[j]) <= 0
  {
    var collected := CollectSuggestions(bookings);
    var r := Sort(collected, CaseInsensitiveLe);
    CaseInsensitiveIsPreorder();
    SortIsSorted(collected, CaseInsensitiveLe);
    DistinctPermutation(collected, r);
    PermutationSameMembers(collected, r);
    r
  }

  // ---------------------------------------------------------------------
  // Counts
  // ---------------------------------------------------------------------

  datatype FilterStats = FilterStats(totalCount: nat, pendingCount: nat, confirmedCount: nat,
                                     inProgressCount: nat, completedCount: nat, cancelledCount: nat)
  {
    /** `getCountForStatus`: one of the five counters. */
    function CountForStatus(s: Status): (r: nat)
      ensures r in {pendingCount, confirmedCount, inProgressCount, completedCount, cancelledCount}
      ensures s == Pending ==> r == pendingCount
      ensures s == Confirmed ==> r == confirmedCount
      ensures s == InProgress ==> r == inProgressCount
      ensures s == Completed ==> r == completedCount
      ensures s == Cancelled ==> r == cancelledCount
    {
      match s
      case Pending => pendingCount
      case Confirmed => confirmedCount
      case InProgress => inProgressCount
      case Completed => completedCount
      case Cancelled => cancelledCount
    }
  }

  /** Each counter is read for exactly one status: reading all five statuses adds up every counter once. */
  lemma {:induction false} CountersReadOnce(stats: FilterStats)
    ensures stats.CountForStatus(Pending) + stats.CountForStatus(Confirmed) + stats.CountForStatus(InProgress)
            + stats.CountForStatus(Completed) + stats.CountForStatus(Cancelled)
            == stats.pendingCount + stats.confirmedCount + stats.inProgressCount + stats.completedCount + stats.cancelledCount
  {
  }

  /** One loop step of `getFilterStats`: the status's counter and the total grow by one. */
  function Tally(stats: FilterStats, s: Status): (r: FilterStats)
    ensures r.totalCount == stats.totalCount + 1
    ensures r.CountForStatus(s) == stats.CountForStatus(s) + 1
    ensures forall t :: t != s ==> r.CountForStatus(t) == stats.CountForStatus(t)
  {
    var bumped := match s
      case Pending => stats.(pendingCount := stats.pendingCount + 1)
      case Confirmed => stats.(confirmedCount := stats.confirmedCount + 1)
      case InProgress => stats.(inProgressCount := stats.inProgressCount + 1)
      case Completed => stats.(completedCount := stats.completedCount + 1)
      case Cancelled => stats.(cancelledCount := stats.cancelledCount + 1);
    bumped.(totalCount := stats.totalCount + 1)
  }

  /** `getFilterStats`: per-status counts (null as Pending) and the total. */
  function GetFilterStats(bookings: seq<BookingRequest>): (r: FilterStats)
    ensures r.totalCount == |bookings|
    ensures r.totalCount == r.pendingCount + r.confirmedCount + r.inProgressCount + r.completedCount + r.cancelledCount
    ensures forall s :: r.CountForStatus(s) == Count(bookings, HasStatus(s))
    ensures r.pendingCount == Count(bookings, HasStatus(Pending))
    ensures r.confirmedCount == Count(bookings, HasStatus(Confirmed))
    ensures r.inProgressCount == Count(bookings, HasStatus(InProgress))
    ensures r.completedCount == Count(bookings, HasStatus(Completed))
    ensures r.cancelledCount == Count(bookings, HasStatus(Cancelled))
  {
    if |bookings| == 0 then FilterStats(0, 0, 0, 0, 0, 0)
    else
      var before := GetFilterStats(bookings[..|bookings| - 1]);
      TallyCounts(bookings, before);
      Tally(before, EffectiveStatus(bookings[|bookings| - 1]))
  }

  /** Tallying the last booking extends the counts of the rest of the list to the whole list. */
  lemma {:induction false} TallyCounts(bookings: seq<BookingRequest>, before: FilterStats)
    requires |bookings| > 0
    requires before.totalCount == |bookings| - 1
    requires before.totalCount == before.pendingCount + before.confirmedCount + before.inProgressCount
                                  + before.completedCount + before.cancelledCount
    requires forall s :: before.CountForStatus(s) == Count(bookings[..|bookings| - 1], HasStatus(s))
    ensures var r := Tally(before, EffectiveStatus(bookings[|bookings| - 1]));
      && r.totalCount == |bookings|
      && r.totalCount == r.pendingCount + r.confirmedCount + r.inProgressCount + r.completedCount + r.cancelledCount
      && forall s :: r.CountForStatus(s) == Count(bookings, HasStatus(s))
  {
    var last := EffectiveStatus(bookings[|bookings| - 1]);
    var r := Tally(before, last);
    assert r.totalCount == r.pendingCount + r.confirmedCount + r.inProgressCount + r.completedCount + r.cancelledCount by {
      CountersReadOnce(before);
      CountersReadOnce(r);
    }
    forall s ensures r.CountForStatus(s) == Count(bookings, HasStatus(s)) {
      assert Count(bookings, HasStatus(s))
        == Count(bookings[..|bookings| - 1], HasStatus(s)) + (if last == s then 1 else 0);
    }
  }

  /** Each per-status count is the size of what the status filter shows. */
  lemma {:induction false} FilterStatsMatchFilter(bookings: seq<BookingRequest>, s: Status)
    ensures GetFilterStats(bookings).CountForStatus(s) == |BookingsByStatus(bookings, s)|
  {
    CountIsFilterLength(bookings, HasStatus(s));
  }
}
