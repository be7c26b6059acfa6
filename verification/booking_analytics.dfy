/**
 The integer parts of the booking analytics (`BookingAnalytics`): per-status
 counts, the week and month windows, newest and oldest booking, and route
 popularity. The clock reading is the `now` parameter.
 */
module BookingAnalytics {
  import opened Wrappers
  import opened Seqs
  import opened Sorting
  import opened BookingStatus
  import opened Booking
  import BookingStore

  const DayMillis: int := 24 * 60 * 60 * 1000
  /** The two windows start 7 and 30 days before the clock reading. */
  const WeekMillis: int := 7 * DayMillis
  const MonthMillis: int := 30 * DayMillis

  /** Booked strictly after the instant (`Date.after`). */
  function BookedAfter(instant: int): BookingRequest -> bool {
    (b: BookingRequest) => b.timestamp > instant
  }

  /** The index of the first booking with the greatest timestamp. */
  function FirstNewestIndex(s: seq<BookingRequest>): (k: nat)
    requires |s| > 0
    ensures k < |s|
    ensures forall j :: 0 <= j < |s| ==> s[j].timestamp <= s[k].timestamp
    ensures forall j :: 0 <= j < k ==> s[j].timestamp < s[k].timestamp
  {
    if |s| == 1 then 0
    else
      var k := FirstNewestIndex(s[..|s| - 1]);
      if s[|s| - 1].timestamp > s[k].timestamp then |s| - 1 else k
  }

  /** The index of the first booking with the smallest timestamp. */
  function FirstOldestIndex(s: seq<BookingRequest>): (k: nat)
    requires |s| > 0
    ensures k < |s|
    ensures forall j :: 0 <= j < |s| ==> s[j].timestamp >= s[k].timestamp
    ensures forall j :: 0 <= j < k ==> s[j].timestamp > s[k].timestamp
  {
    if |s| == 1 then 0
    else
      var k := FirstOldestIndex(s[..|s| - 1]);
      if s[|s| - 1].timestamp < s[k].timestamp then |s| - 1 else k
  }

  /** The integer fields of `BookingAnalytics.BookingStats`. */
  datatype BookingStats = BookingStats(
    totalBookings: nat,
    pendingBookings: nat,
    confirmedBookings: nat,
    inProgressBookings: nat,
    completedBookings: nat,
    cancelledBookings: nat,
    activeBookings: nat,
    thisMonthBookings: nat,
    thisWeekBookings: nat,
    mostRecentBooking: Option<BookingRequest>,
    oldestBooking: Option<BookingRequest>)
  {
    function CountFor(s: Status): nat {
      match s
      case Pending => pendingBookings
      case Confirmed => confirmedBookings
      case InProgress => inProgressBookings
      case Completed => completedBookings
      case Cancelled => cancelledBookings
    }
  }

  /** The accumulator before the loop: no counts, and the first booking as newest and oldest. */
  function InitialStats(first: BookingRequest): BookingStats {
    BookingStats(0, 0, 0, 0, 0, 0, 0, 0, 0, Some(first), Some(first))
  }

  /**
   One iteration of the `calculateBookingStats` loop at clock reading `now`:
   the booking's status counter, the active, week and month counters, and a
   strictly newer or strictly older booking replacing the current one.
   */
  function Step(acc: BookingStats, b: BookingRequest, now: int): (r: BookingStats)
    requires acc.mostRecentBooking.Some? && acc.oldestBooking.Some?
    ensures r.totalBookings == acc.totalBookings
    ensures r.CountFor(EffectiveStatus(b)) == acc.CountFor(EffectiveStatus(b)) + 1
    ensures forall s :: s != EffectiveStatus(b) ==> r.CountFor(s) == acc.CountFor(s)
    ensures r.activeBookings == acc.activeBookings + (if IsTerminal(EffectiveStatus(b)) then 0 else 1)
    ensures r.thisWeekBookings == acc.thisWeekBookings + Count([b], BookedAfter(now - WeekMillis))
    ensures r.thisMonthBookings == acc.thisMonthBookings + Count([b], BookedAfter(now - MonthMillis))
    // The newest of the kept booking and `b`, the kept one on a tie.
    ensures r.mostRecentBooking.Some? && r.mostRecentBooking.value in {acc.mostRecentBooking.value, b}
    ensures r.mostRecentBooking.value.timestamp >= acc.mostRecentBooking.value.timestamp
    ensures r.mostRecentBooking.value.timestamp >= b.timestamp
    ensures b.timestamp <= acc.mostRecentBooking.value.timestamp ==> r.mostRecentBooking == acc.mostRecentBooking
    // The oldest of the kept booking and `b`, the kept one on a tie.
    ensures r.oldestBooking.Some? && r.oldestBooking.value in {acc.oldestBooking.value, b}
    ensures r.oldestBooking.value.timestamp <= acc.oldestBooking.value.timestamp
    ensures r.oldestBooking.value.timestamp <= b.timestamp
    ensures b.timestamp >= acc.oldestBooking.value.timestamp ==> r.oldestBooking == acc.oldestBooking
  {
    var status := EffectiveStatus(b);
    var counted := match status
      case Pending => acc.(pendingBookings := acc.pendingBookings + 1)
      case Confirmed => acc.(confirmedBookings := acc.confirmedBookings + 1)
      case InProgress => acc.(inProgressBookings := acc.inProgressBookings + 1)
      case Completed => acc.(completedBookings := acc.completedBookings + 1)
      case Cancelled => acc.(cancelledBookings := acc.cancelledBookings + 1);
    counted.(
      activeBookings := acc.activeBookings + (if status != Completed && status != Cancelled then 1 else 0),
      thisWeekBookings := acc.thisWeekBookings + (if b.timestamp > now - WeekMillis then 1 else 0),
      thisMonthBookings := acc.thisMonthBookings + (if b.timestamp > now - MonthMillis then 1 else 0),
      mostRecentBooking := if b.timestamp > acc.mostRecentBooking.value.timestamp then Some(b) else acc.mostRecentBooking,
      oldestBooking := if b.timestamp < acc.oldestBooking.value.timestamp then Some(b) else acc.oldestBooking)
  }

  /** The loop of `calculateBookingStats` over a non-empty list. */
  function ScanStats(s: seq<BookingRequest>, now: int): (r: BookingStats)
    requires |s| > 0
    ensures r.mostRecentBooking.Some? && r.oldestBooking.Some?
  {
    var acc := if |s| == 1 then InitialStats(s[0]) else ScanStats(s[..|s| - 1], now);
    Step(acc, s[|s| - 1], now)
  }

  /** The loop counts each status (null as Pending) and the active bookings. */
  lemma {:induction false} ScanCountsStatuses(s: seq<BookingRequest>, now: int)
    requires |s| > 0
    ensures var r := ScanStats(s, now);
      && r.totalBookings == 0
      && (forall st :: r.CountFor(st) == Count(s, BookingStore.HasStatus(st)))
      && r.pendingBookings + r.confirmedBookings + r.inProgressBookings + r.completedBookings + r.cancelledBookings == |s|
      && r.activeBookings == r.pendingBookings + r.confirmedBookings + r.inProgressBookings
  {
    var init, b := s[..|s| - 1], s[|s| - 1];
    var r := ScanStats(s, now);
    var acc := if |s| == 1 then InitialStats(s[0]) else ScanStats(init, now);
    if |s| > 1 {
      ScanCountsStatuses(init, now);
    } else {
      assert init == [];
    }
    assert r == Step(acc, b, now);
    StepKeepsSums(acc, b, now);
    forall st ensures r.CountFor(st) == Count(s, BookingStore.HasStatus(st)) {
      assert Count(s, BookingStore.HasStatus(st))
        == Count(init, BookingStore.HasStatus(st)) + (if EffectiveStatus(b) == st then 1 else 0);
    }
  }

  /** One step adds one to the sum of the status counters, and to the active count exactly for a non-terminal status. */
  lemma {:induction false} StepKeepsSums(acc: BookingStats, b: BookingRequest, now: int)
    requires acc.mostRecentBooking.Some? && acc.oldestBooking.Some?
    ensures var r := Step(acc, b, now);
      && r.totalBookings == acc.totalBookings
      && r.pendingBookings + r.confirmedBookings + r.inProgressBookings + r.completedBookings + r.cancelledBookings
         == acc.pendingBookings + acc.confirmedBookings + acc.inProgressBookings + acc.completedBookings + acc.cancelledBookings + 1
      && r.pendingBookings + r.confirmedBookings + r.inProgressBookings - r.activeBookings
         == acc.pendingBookings + acc.confirmedBookings + acc.inProgressBookings - acc.activeBookings
  {
    var r := Step(acc, b, now);
    assert r.CountFor(EffectiveStatus(b)) == acc.CountFor(EffectiveStatus(b)) + 1;
    match EffectiveStatus(b)
    case Pending =>
      assert r.CountFor(Confirmed) == acc.CountFor(Confirmed) && r.CountFor(InProgress) == acc.CountFor(InProgress);
      assert r.CountFor(Completed) == acc.CountFor(Completed) && r.CountFor(Cancelled) == acc.CountFor(Cancelled);
    case Confirmed =>
      assert r.CountFor(Pending) == acc.CountFor(Pending) && r.CountFor(InProgress) == acc.CountFor(InProgress);
      assert r.CountFor(Completed) == acc.CountFor(Completed) && r.CountFor(Cancelled) == acc.CountFor(Cancelled);
    case InProgress =>
      assert r.CountFor(Pending) == acc.CountFor(Pending) && r.CountFor(Confirmed) == acc.CountFor(Confirmed);
      assert r.CountFor(Completed) == acc.CountFor(Completed) && r.CountFor(Cancelled) == acc.CountFor(Cancelled);
    case Completed =>
      assert r.CountFor(Pending) == acc.CountFor(Pending) && r.CountFor(Confirmed) == acc.CountFor(Confirmed);
      assert r.CountFor(InProgress) == acc.CountFor(InProgress) && r.CountFor(Cancelled) == acc.CountFor(Cancelled);
    case Cancelled =>
      assert r.CountFor(Pending) == acc.CountFor(Pending) && r.CountFor(Confirmed) == acc.CountFor(Confirmed);
      assert r.CountFor(InProgress) == acc.CountFor(InProgress) && r.CountFor(Completed) == acc.CountFor(Completed);
  }

  /** The loop counts the bookings of the week and month windows. */
  lemma {:induction false} ScanCountsWindows(s: seq<BookingRequest>, now: int)
    requires |s| > 0
    ensures var r := ScanStats(s, now);
      && r.thisWeekBookings == Count(s, BookedAfter(now - WeekMillis))
      && r.thisMonthBookings == Count(s, BookedAfter(now - MonthMillis))
  {
    if |s| > 1 {
      ScanCountsWindows(s[..|s| - 1], now);
    } else {
      assert s[..0] == [];
    }
  }

  /** The loop keeps the first newest and the first oldest booking. */
  lemma {:induction false} ScanFindsExtremes(s: seq<BookingRequest>, now: int)
    requires |s| > 0
    ensures ScanStats(s, now).mostRecentBooking == Some(s[FirstNewestIndex(s)])
    ensures ScanStats(s, now).oldestBooking == Some(s[FirstOldestIndex(s)])
  {
    if |s| > 1 {
      ScanFindsExtremes(s[..|s| - 1], now);
    }
  }

  /**
   `calculateBookingStats(bookings)` at clock reading `now`: status counts
   (null as Pending), active bookings, the bookings of the last 7 and 30
   days, and the first newest and first oldest booking; all zero for an
   empty list.
   */
  function CalculateBookingStats(bookings: seq<BookingRequest>, now: int): (stats: BookingStats)
    ensures |bookings| == 0 ==> stats == BookingStats(0, 0, 0, 0, 0, 0, 0, 0, 0, None, None)
    ensures stats.totalBookings == |bookings|
    ensures forall s :: stats.CountFor(s) == Count(bookings, BookingStore.HasStatus(s))
    ensures stats.pendingBookings + stats.confirmedBookings + stats.inProgressBookings
            + stats.completedBookings + stats.cancelledBookings == stats.totalBookings
    ensures stats.activeBookings == stats.totalBookings - stats.completedBookings - stats.cancelledBookings
    ensures stats.thisWeekBookings == Count(bookings, BookedAfter(now - WeekMillis))
    ensures stats.thisMonthBookings == Count(bookings, BookedAfter(now - MonthMillis))
    ensures |bookings| > 0 ==> stats.mostRecentBooking == Some(bookings[FirstNewestIndex(bookings)])
    ensures |bookings| > 0 ==> stats.oldestBooking == Some(bookings[FirstOldestIndex(bookings)])
  {
    if |bookings| == 0 then BookingStats(0, 0, 0, 0, 0, 0, 0, 0, 0, None, None)
    else
      ScanCountsStatuses(bookings, now);
      ScanCountsWindows(bookings, now);
      ScanFindsExtremes(bookings, now);
      ScanStats(bookings, now).(totalBookings := |bookings|)
  }

  /** The week window lies inside the month window, which lies inside the list. */
  lemma {:induction false} WindowsNest(bookings: seq<BookingRequest>, now: int)
    ensures var stats := CalculateBookingStats(bookings, now);
      stats.thisWeekBookings <= stats.thisMonthBookings <= stats.totalBookings
  {
    CountMonotone(bookings, BookedAfter(now - WeekMillis), BookedAfter(now - MonthMillis));
  }

  // ---------------------------------------------------------------------
  // Route popularity
  // ---------------------------------------------------------------------

  /**
   The grouping key of a booking's route. The separator is the three
   characters U+201A U+00DC U+00ED, the UTF-8 bytes of an arrow read as
   Mac Roman, exactly as the route key is spelled here.
   */
  function RouteKey(b: BookingRequest): string {
    b.source + " \U{201A}\U{00DC}\U{00ED} " + b.destination
  }

  function OnRoute(key: string): BookingRequest -> bool {
    b => RouteKey(b) == key
  }

  function OnRouteWithStatus(key: string, s: Status): BookingRequest -> bool {
    b => RouteKey(b) == key && EffectiveStatus(b) == s
  }

  /** `RouteStats` without the floating-point percentage and the duration. */
  datatype RouteStats = RouteStats(route: string, count: nat, mostCommonStatus: Status)

  function EntryCount(e: RouteStats): nat {
    e.count
  }

  function RouteNames(g: seq<RouteStats>): (r: seq<string>)
    ensures |r| == |g|
    ensures forall i :: 0 <= i < |g| ==> r[i] == g[i].route
  {
    seq(|g|, i requires 0 <= i < |g| => g[i].route)
  }

  /** `g` is the route-count map of `bookings`, one entry per distinct key. */
  ghost predicate Grouped(bookings: seq<BookingRequest>, g: seq<RouteStats>) {
    && Distinct(RouteNames(g))
    && (forall i :: 0 <= i < |g| ==> g[i].count == Count(bookings, OnRoute(g[i].route)) && g[i].count > 0)
    && (forall k :: k in RouteNames(g) <==> exists j :: 0 <= j < |bookings| && RouteKey(bookings[j]) == k)
    && SumOf(g, EntryCount) == |bookings|
  }

  /** `routeCounts.put(key, routeCounts.getOrDefault(key, 0) + 1)`. */
  function AddToGroup(g: seq<RouteStats>, key: string): seq<RouteStats> {
    match FirstIndex(g, (e: RouteStats) => e.route == key)
    case Some(i) => g[i := g[i].(count := g[i].count + 1)]
    case None => g + [RouteStats(key, 1, Pending)]
  }

  /**
   The `routeCounts` map as a list of (route, count) entries in first-seen
   order; the status field is a placeholder until the status pass.
   */
  function GroupRoutes(bookings: seq<BookingRequest>): (g: seq<RouteStats>)
    ensures Grouped(bookings, g)
  {
    if |bookings| == 0 then []
    else
      var init, b := bookings[..|bookings| - 1], bookings[|bookings| - 1];
      var before := GroupRoutes(init);
      AddToGroupKeepsGrouping(bookings, init, before);
      AddToGroup(before, RouteKey(b))
  }

  /** Counting one more booking keeps the grouping exact. */
  lemma {:induction false} AddToGroupKeepsGrouping(all: seq<BookingRequest>, init: seq<BookingRequest>, before: seq<RouteStats>)
    requires |all| > 0 && init == all[..|all| - 1]
    requires Grouped(init, before)
    ensures Grouped(all, AddToGroup(before, RouteKey(all[|all| - 1])))
  {
    var b := all[|all| - 1];
    assert all == init + [b];
    var key := RouteKey(b);
    match FirstIndex(before, (e: RouteStats) => e.route == key)
    case Some(i) => AddExistingRoute(init, b, before, i);
    case None => AddNewRoute(init, b, before);
  }

  /** One more booking's route count, by route key. */
  lemma {:induction false} CountOneMore(init: seq<BookingRequest>, b: BookingRequest, k: string)
    ensures Count(init + [b], OnRoute(k)) == Count(init, OnRoute(k)) + (if RouteKey(b) == k then 1 else 0)
  {
    assert (init + [b])[..|init|] == init;
  }

  lemma {:induction false} AddExistingRoute(init: seq<BookingRequest>, b: BookingRequest, before: seq<RouteStats>, i: nat)
    requires Grouped(init, before)
    requires i < |before| && before[i].route == RouteKey(b)
    ensures Grouped(init + [b], before[i := before[i].(count := before[i].count + 1)])
  {
    var all := init + [b];
    var g := before[i := before[i].(count := before[i].count + 1)];
    assert RouteNames(g) == RouteNames(before);
    SumOfUpdate(before, i, g[i], EntryCount);
    forall m | 0 <= m < |g| ensures g[m].count == Count(all, OnRoute(g[m].route)) {
      CountOneMore(init, b, g[m].route);
      if m != i {
        assert RouteNames(before)[m] != RouteNames(before)[i];
      }
    }
    GroupStep(init, b, before, g);
  }

  lemma {:induction false} AddNewRoute(init: seq<BookingRequest>, b: BookingRequest, before: seq<RouteStats>)
    requires Grouped(init, before)
    requires forall j :: 0 <= j < |before| ==> before[j].route != RouteKey(b)
    ensures Grouped(init + [b], before + [RouteStats(RouteKey(b), 1, Pending)])
  {
    var key := RouteKey(b);
    var all := init + [b];
    var g := before + [RouteStats(key, 1, Pending)];
    var names := RouteNames(before);
    assert RouteNames(g) == names + [key];
    assert Distinct(RouteNames(g)) by {
      assert key !in names;
    }
    assert Count(init, OnRoute(key)) == 0 by {
      forall j | 0 <= j < |init|
        ensures !OnRoute(key)(init[j])
      {
        assert RouteKey(init[j]) in names;
      }
      CountZero(init, OnRoute(key));
    }
    forall m | 0 <= m < |g|
      ensures g[m].count == Count(all, OnRoute(g[m].route)) && g[m].count > 0
    {
      CountOneMore(init, b, g[m].route);
      if m < |before| {
        assert g[m] == before[m];
      }
    }
    assert SumOf(g, EntryCount) == |all| by {
      assert g[..|before|] == before;
    }
    GroupStep(init, b, before, g);
  }

  /** The key set grows by the new booking's route key. */
  lemma {:induction false} GroupStep(init: seq<BookingRequest>, b: BookingRequest, before: seq<RouteStats>, g: seq<RouteStats>)
    requires forall k :: k in RouteNames(before) <==> exists j :: 0 <= j < |init| && RouteKey(init[j]) == k
    requires forall k :: k in RouteNames(g) <==> k in RouteNames(before) || k == RouteKey(b)
    ensures forall k :: k in RouteNames(g) <==> exists j :: 0 <= j < |init + [b]| && RouteKey((init + [b])[j]) == k
  {
    var all := init + [b];
    forall k ensures k in RouteNames(g) <==> exists j :: 0 <= j < |all| && RouteKey(all[j]) == k {
      if k in RouteNames(before) {
        var j :| 0 <= j < |init| && RouteKey(init[j]) == k;
        assert all[j] == init[j];
      }
      if exists j :: 0 <= j < |all| && RouteKey(all[j]) == k {
        var j :| 0 <= j < |all| && RouteKey(all[j]) == k;
        if j < |init| {
          assert all[j] == init[j];
        }
      }
      assert all[|init|] == b;
    }
  }

  const StatusOrder: seq<Status> := [Pending, Confirmed, InProgress, Completed, Cancelled]

  /** How many bookings on the route have the status. */
  function StatusCountOnRoute(bookings: seq<BookingRequest>, key: string, t: Status): nat {
    Count(bookings, OnRouteWithStatus(key, t))
  }

  /**
   The "first strictly greater count wins" scan over status counts, starting
   from the given best status and count.
   */
  function ScanMostCommon(bookings: seq<BookingRequest>, key: string, cs: seq<Status>, best: Status, max: nat): (r: (Status, nat))
    ensures r.1 >= max
    ensures forall i :: 0 <= i < |cs| ==> StatusCountOnRoute(bookings, key, cs[i]) <= r.1
    ensures (r.0 == best && r.1 == max) || StatusCountOnRoute(bookings, key, r.0) == r.1
  {
    if |cs| == 0 then (best, max)
    else
      var c := StatusCountOnRoute(bookings, key, cs[0]);
      if c > max then ScanMostCommon(bookings, key, cs[1..], cs[0], c)
      else ScanMostCommon(bookings, key, cs[1..], best, max)
  }

  /**
   The most common status on a route. Statuses are scanned in declaration
   order, standing in for the unspecified order of the status-count map.
   */
  function MostCommonStatus(bookings: seq<BookingRequest>, key: string): (s: Status)
    ensures forall t :: StatusCountOnRoute(bookings, key, t) <= StatusCountOnRoute(bookings, key, s)
    ensures Count(bookings, OnRoute(key)) > 0 ==> StatusCountOnRoute(bookings, key, s) > 0
  {
    var r := ScanMostCommon(bookings, key, StatusOrder, Pending, 0);
    assert forall t :: StatusCountOnRoute(bookings, key, t) <= r.1 by {
      forall t ensures StatusCountOnRoute(bookings, key, t) <= r.1 {
        assert StatusOrder[StatusIndex(t)] == t;
      }
    }
    if Count(bookings, OnRoute(key)) > 0 then
      RouteHasSomeStatus(bookings, key);
      r.0
    else r.0
  }

  function StatusIndex(t: Status): (i: nat)
    ensures i < |StatusOrder| && StatusOrder[i] == t
  {
    match t
    case Pending => 0
    case Confirmed => 1
    case InProgress => 2
    case Completed => 3
    case Cancelled => 4
  }

  /** A route with bookings has a status that occurs on it. */
  lemma {:induction false} RouteHasSomeStatus(bookings: seq<BookingRequest>, key: string)
    requires Count(bookings, OnRoute(key)) > 0
    ensures exists t :: StatusCountOnRoute(bookings, key, t) > 0
  {
    var last := bookings[|bookings| - 1];
    if RouteKey(last) == key {
      CountPositive(bookings, OnRouteWithStatus(key, EffectiveStatus(last)), |bookings| - 1);
      assert StatusCountOnRoute(bookings, key, EffectiveStatus(last)) > 0;
    } else {
      var init := bookings[..|bookings| - 1];
      RouteHasSomeStatus(init, key);
      var t :| StatusCountOnRoute(init, key, t) > 0;
      assert StatusCountOnRoute(bookings, key, t) >= StatusCountOnRoute(init, key, t);
    }
  }

  /** An entry of `analyzeRoutePopularity`'s result describes its route faithfully. */
  predicate FaithfulEntry(bookings: seq<BookingRequest>, e: RouteStats) {
    && e.count == Count(bookings, OnRoute(e.route))
    && e.count > 0
    && (forall t :: StatusCountOnRoute(bookings, e.route, t) <= StatusCountOnRoute(bookings, e.route, e.mostCommonStatus))
    && StatusCountOnRoute(bookings, e.route, e.mostCommonStatus) > 0
  }

  /** The status pass: fills in each entry's most common status. */
  function WithMostCommon(bookings: seq<BookingRequest>, g: seq<RouteStats>): (r: seq<RouteStats>)
    requires forall i :: 0 <= i < |g| ==> g[i].count == Count(bookings, OnRoute(g[i].route)) && g[i].count > 0
    ensures |r| == |g|
    ensures forall i :: 0 <= i < |r| ==> r[i].route == g[i].route && r[i].count == g[i].count
    ensures forall i :: 0 <= i < |r| ==> FaithfulEntry(bookings, r[i])
    ensures SumOf(r, EntryCount) == SumOf(g, EntryCount)
  {
    if |g| == 0 then []
    else
      var init := WithMostCommon(bookings, g[..|g| - 1]);
      var e := g[|g| - 1];
      var r := init + [e.(mostCommonStatus := MostCommonStatus(bookings, e.route))];
      assert r[..|r| - 1] == init;
      r
  }

  /** Route entries ordered by non-increasing count (`Integer.compare(b.count, a.count)`). */
  function ByCountDescending(a: RouteStats, b: RouteStats): bool {
    a.count >= b.count
  }

  lemma {:induction false} ByCountDescendingIsPreorder()
    ensures Total(ByCountDescending) && Transitive(ByCountDescending)
  {
  }

  /**
   `analyzeRoutePopularity(bookings)`: one entry per distinct route key with
   its booking count and most common status, most popular first.
   */
  function AnalyzeRoutePopularity(bookings: seq<BookingRequest>): (r: seq<RouteStats>)
    ensures forall i, j :: 0 <= i < j < |r| ==> r[i].route != r[j].route
    ensures forall i :: 0 <= i < |r| ==> FaithfulEntry(bookings, r[i])
    ensures forall j :: 0 <= j < |bookings| ==> exists i :: 0 <= i < |r| && r[i].route == RouteKey(bookings[j])
    ensures SumOf(r, EntryCount) == |bookings|
    ensures forall i, j :: 0 <= i < j < |r| ==> r[i].count >= r[j].count
  {
    var g := GroupRoutes(bookings);
    var entries := WithMostCommon(bookings, g);
    var r := Sort(entries, ByCountDescending);
    ByCountDescendingIsPreorder();
    SortIsSorted(entries, ByCountDescending);
    SumOfPermutation(entries, r, EntryCount);
    RoutePopularityFacts(bookings, g, entries, r);
    r
  }

  /** The entries survive the sort: distinct routes, faithful, and covering every booking. */
  lemma {:induction false} RoutePopularityFacts(bookings: seq<BookingRequest>, g: seq<RouteStats>, entries: seq<RouteStats>, r: seq<RouteStats>)
    requires Distinct(RouteNames(g))
    requires forall k :: k in RouteNames(g) <==> exists j :: 0 <= j < |bookings| && RouteKey(bookings[j]) == k
    requires |entries| == |g|
    requires forall i :: 0 <= i < |entries| ==> entries[i].route == g[i].route
    requires forall i :: 0 <= i < |entries| ==> FaithfulEntry(bookings, entries[i])
    requires multiset(r) == multiset(entries)
    ensures forall i, j :: 0 <= i < j < |r| ==> r[i].route != r[j].route
    ensures forall i :: 0 <= i < |r| ==> FaithfulEntry(bookings, r[i])
    ensures forall j :: 0 <= j < |bookings| ==> exists i :: 0 <= i < |r| && r[i].route == RouteKey(bookings[j])
  {
    assert forall x :: x in r <==> x in entries by {
      forall x ensures x in r <==> x in entries {
        assert x in r <==> x in multiset(r);
        assert x in entries <==> x in multiset(entries);
      }
    }
    assert Distinct(entries) by {
      forall i, j | 0 <= i < j < |entries| ensures entries[i] != entries[j] {
        assert RouteNames(g)[i] != RouteNames(g)[j];
      }
    }
    DistinctPermutation(entries, r);
    forall i | 0 <= i < |r| ensures FaithfulEntry(bookings, r[i]) {
      assert r[i] in entries;
      var m :| 0 <= m < |entries| && entries[m] == r[i];
    }
    forall i, j | 0 <= i < j < |r| ensures r[i].route != r[j].route {
      assert r[i] in entries && r[j] in entries;
      assert FaithfulEntry(bookings, r[i]) && FaithfulEntry(bookings, r[j]);
    }
    forall j | 0 <= j < |bookings| ensures exists i :: 0 <= i < |r| && r[i].route == RouteKey(bookings[j]) {
      var k := RouteKey(bookings[j]);
      assert k in RouteNames(g);
      var m :| 0 <= m < |g| && RouteNames(g)[m] == k;
      assert entries[m] in r;
      var i :| 0 <= i < |r| && r[i] == entries[m];
    }
  }
}
