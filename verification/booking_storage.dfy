/**
 The booking store (`BookingStorage`): the persisted list of bookings,
 modelled as a sequence that each operation maps to its successor, plus the
 store's ID generator and input predicates.
 */
module BookingStore {
  import opened Wrappers
  import opened Text
  import opened Seqs
  import opened BookingStatus
  import opened Booking

  type Store = seq<BookingRequest>

  /** Some stored booking carries the (non-null) id `id`. */
  predicate IdTaken(store: Store, id: string) {
    exists i :: 0 <= i < |store| && store[i].bookingId == Some(id)
  }

  /** No two stored bookings share a non-null id. */
  predicate IdsUnique(store: Store) {
    forall i, j :: 0 <= i < j < |store| && store[i].bookingId.Some? ==> store[i].bookingId != store[j].bookingId
  }

  /** `saveBooking`: appends unless a booking with the same non-null id is stored. */
  function SaveBooking(store: Store, b: BookingRequest): (r: Store)
    ensures b.bookingId.Some? && IdTaken(store, b.bookingId.value) ==> r == store
    ensures b.bookingId.None? || !IdTaken(store, b.bookingId.value) ==> r == store + [b]
  {
    if b.bookingId.Some? && IdTaken(store, b.bookingId.value) then store else store + [b]
  }

  /** Saving never introduces a second booking with an existing id. */
  lemma {:induction false} SaveBookingKeepsIdsUnique(store: Store, b: BookingRequest)
    requires IdsUnique(store)
    ensures IdsUnique(SaveBooking(store, b))
  {
    var r := SaveBooking(store, b);
    if r != store {
      forall i, j | 0 <= i < j < |r| && r[i].bookingId.Some?
        ensures r[i].bookingId != r[j].bookingId
      {
        if j == |store| && b.bookingId.Some? {
          assert store[i].bookingId == r[i].bookingId;
        }
      }
    }
  }

  /** Bookings without an id are never deduplicated: saving one always grows the store. */
  lemma {:induction false} SaveWithoutIdAlwaysAppends(store: Store, b: BookingRequest)
    requires b.bookingId.None?
    ensures |SaveBooking(store, b)| == |store| + 1
  {
  }

  /** The per-position test of `updateBooking`: both ids set and equal, or the same timestamp. */
  predicate UpdateMatches(updated: BookingRequest, existing: BookingRequest) {
    || (updated.bookingId.Some? && existing.bookingId.Some? && updated.bookingId == existing.bookingId)
    || existing.timestamp == updated.timestamp
  }

  /**
   `updateBooking`: replaces the first booking that matches by id or by
   timestamp, checked position by position; appends when none matches.
   */
  function UpdateBooking(store: Store, updated: BookingRequest): (r: Store)
    ensures (forall j :: 0 <= j < |store| ==> !UpdateMatches(updated, store[j])) ==> r == store + [updated]
    ensures forall i :: 0 <= i < |store| && UpdateMatches(updated, store[i])
                        && (forall j :: 0 <= j < i ==> !UpdateMatches(updated, store[j]))
                        ==> r == store[i := updated]
  {
    match FirstIndex(store, b => UpdateMatches(updated, b))
    case None => store + [updated]
    case Some(i) => store[i := updated]
  }

  /** An update changes at most one stored position, or appends. */
  lemma {:induction false} UpdateTouchesOnePosition(store: Store, updated: BookingRequest)
    ensures var r := UpdateBooking(store, updated);
      || r == store + [updated]
      || (&& |r| == |store|
          && exists i :: 0 <= i < |store| && r[i] == updated
                         && forall j :: 0 <= j < |store| && j != i ==> r[j] == store[j])
  {
    var i := FirstIndex(store, b => UpdateMatches(updated, b));
    if i.Some? {
      var r := UpdateBooking(store, updated);
      assert r[i.value] == updated;
    }
  }

  /**
   The match is positional: an earlier booking with the same timestamp is
   replaced even when a later one carries the same id.
   */
  lemma {:induction false} EarlierTimestampMatchWins(store: Store, updated: BookingRequest, i: nat, k: nat)
    requires i < k < |store|
    requires store[i].timestamp == updated.timestamp
    requires updated.bookingId.Some? && store[k].bookingId == updated.bookingId
    requires forall j :: 0 <= j < i ==> !UpdateMatches(updated, store[j])
    ensures UpdateBooking(store, updated)[i] == updated
    ensures UpdateBooking(store, updated)[k] == store[k]
  {
  }

  /** `clearAllBookings`: the store becomes empty (and reads back as the empty list). */
  function ClearAllBookings(store: Store): (r: Store)
    ensures |r| == 0
  {
    []
  }

  /** Whether a booking's effective status (null read as Pending) is `s`. */
  function HasStatus(s: Status): BookingRequest -> bool {
    b => EffectiveStatus(b) == s
  }

  /** `getBookingsByStatus(s)`: the bookings with effective status `s`, in stored order. */
  function BookingsByStatus(store: Store, s: Status): (r: Store)
    ensures IsSubseq(r, store)
    ensures forall i :: 0 <= i < |r| ==> EffectiveStatus(r[i]) == s
    ensures forall b :: b in store && EffectiveStatus(b) == s ==> b in r
    ensures |r| == Count(store, HasStatus(s))
  {
    var r := Filter(store, HasStatus(s));
    CountIsFilterLength(store, HasStatus(s));
    forall b | b in store && EffectiveStatus(b) == s ensures b in r {
      FilterKeepsMatching(store, HasStatus(s), b);
    }
    r
  }

  /** `BookingStats`: one counter per status. */
  datatype BookingStats = BookingStats(pending: nat, confirmed: nat, inProgress: nat, completed: nat, cancelled: nat)
  {
    function CountFor(s: Status): nat {
      match s
      case Pending => pending
      case Confirmed => confirmed
      case InProgress => inProgress
      case Completed => completed
      case Cancelled => cancelled
    }

    /** `incrementCount`: exactly the counter of `s` grows by one. */
    function Increment(s: Status): (r: BookingStats)
      ensures r.CountFor(s) == CountFor(s) + 1
      ensures forall t :: t != s ==> r.CountFor(t) == CountFor(t)
    {
      match s
      case Pending => this.(pending := pending + 1)
      case Confirmed => this.(confirmed := confirmed + 1)
      case InProgress => this.(inProgress := inProgress + 1)
      case Completed => this.(completed := completed + 1)
      case Cancelled => this.(cancelled := cancelled + 1)
    }

    function TotalCount(): nat {
      pending + confirmed + inProgress + completed + cancelled
    }

    function ActiveCount(): nat {
      pending + confirmed + inProgress
    }
  }

  predicate IsActive(b: BookingRequest) {
    !IsTerminal(EffectiveStatus(b))
  }

  /** `getBookingStats`: counts the stored bookings per effective status. */
  method GetBookingStats(store: Store) returns (stats: BookingStats)
    ensures forall s :: stats.CountFor(s) == Count(store, HasStatus(s))
    ensures stats.TotalCount() == |store|
    ensures stats.ActiveCount() == Count(store, IsActive)
    ensures stats.ActiveCount() == stats.TotalCount() - stats.CountFor(Completed) - stats.CountFor(Cancelled)
  {
    var pending, confirmed, inProgress, completed, cancelled := 0, 0, 0, 0, 0;
    var i := 0;
    while i < |store|
      invariant 0 <= i <= |store|
      invariant pending == Count(store[..i], HasStatus(Pending))
      invariant confirmed == Count(store[..i], HasStatus(Confirmed))
      invariant inProgress == Count(store[..i], HasStatus(InProgress))
      invariant completed == Count(store[..i], HasStatus(Completed))
      invariant cancelled == Count(store[..i], HasStatus(Cancelled))
      invariant pending + confirmed + inProgress + completed + cancelled == i
      invariant pending + confirmed + inProgress == Count(store[..i], IsActive)
    {
      CountPrefixStep(store, i, HasStatus(Pending));
      CountPrefixStep(store, i, HasStatus(Confirmed));
      CountPrefixStep(store, i, HasStatus(InProgress));
      CountPrefixStep(store, i, HasStatus(Completed));
      CountPrefixStep(store, i, HasStatus(Cancelled));
      CountPrefixStep(store, i, IsActive);
      match EffectiveStatus(store[i]) {
        case Pending => pending := pending + 1;
        case Confirmed => confirmed := confirmed + 1;
        case InProgress => inProgress := inProgress + 1;
        case Completed => completed := completed + 1;
        case Cancelled => cancelled := cancelled + 1;
      }
      i := i + 1;
    }
    assert store[..|store|] == store;
    stats := BookingStats(pending, confirmed, inProgress, completed, cancelled);
  }

  /** The id candidate "BK" + timestamp + random component. */
  function CandidateId(timestamp: int, random: int): string {
    "BK" + IntToString(timestamp) + IntToString(random)
  }

  /**
   `generateUniqueBookingId`, as written: a taken first candidate is replaced
   once by a second candidate that is not checked again. The clock readings
   and the random components are parameters; `(int)(Math.random() * 1000)`
   and `* 10000` bound the random parts.
   */
  function GenerateUniqueBookingId(store: Store, ts1: int, r1: nat, ts2: int, r2: nat): (id: string)
    requires r1 < 1000 && r2 < 10000
    ensures !IdTaken(store, CandidateId(ts1, r1)) ==> id == CandidateId(ts1, r1) && !IdTaken(store, id)
    ensures IdTaken(store, CandidateId(ts1, r1)) ==> id == CandidateId(ts2, r2)
  {
    if IdTaken(store, CandidateId(ts1, r1)) then CandidateId(ts2, r2) else CandidateId(ts1, r1)
  }

  /**
   The replacement candidate is not checked: with two clock readings in the
   same millisecond (here 1 January 2025, 00:00 UTC) and random parts that
   match two stored bookings, the "unique" id belongs to a stored booking.
   */
  lemma {:induction false} GeneratedIdCanCollide()
    ensures var now, r1, r2 := 1735689600000, 123, 4567;
      var store := [NewBooking("A", "B", Date(2025, 1, 1), now).(bookingId := Some(CandidateId(now, r1))),
                    NewBooking("A", "B", Date(2025, 1, 1), now).(bookingId := Some(CandidateId(now, r2)))];
      IdTaken(store, GenerateUniqueBookingId(store, now, r1, now, r2))
  {
    var now, r1, r2 := 1735689600000, 123, 4567;
    var store := [NewBooking("A", "B", Date(2025, 1, 1), now).(bookingId := Some(CandidateId(now, r1))),
                  NewBooking("A", "B", Date(2025, 1, 1), now).(bookingId := Some(CandidateId(now, r2)))];
    assert store[0].bookingId == Some(CandidateId(now, r1));
    assert store[1].bookingId == Some(CandidateId(now, r2));
  }

  /**
   The generator as intended: the first of the offered `(timestamp, random)`
   candidates whose id is free, re-checking every candidate; none when all
   are taken.
   */
  function GenerateFreshBookingId(store: Store, candidates: seq<(int, nat)>): (id: Option<string>)
    ensures id.Some? ==> !IdTaken(store, id.value)
    ensures id.Some? ==> exists k :: 0 <= k < |candidates| && id.value == CandidateId(candidates[k].0, candidates[k].1)
    ensures id.None? <==> forall k :: 0 <= k < |candidates| ==> IdTaken(store, CandidateId(candidates[k].0, candidates[k].1))
  {
    if |candidates| == 0 then None
    else if !IdTaken(store, CandidateId(candidates[0].0, candidates[0].1)) then
      Some(CandidateId(candidates[0].0, candidates[0].1))
    else
      var rest := GenerateFreshBookingId(store, candidates[1..]);
      assert forall k :: 1 <= k < |candidates| ==> candidates[k] == candidates[1..][k - 1];
      rest
  }

  /** Saving a booking under a freshly generated id always stores it, and ids stay unique. */
  lemma {:induction false} FreshIdIsSaved(store: Store, b: BookingRequest, candidates: seq<(int, nat)>)
    requires IdsUnique(store)
    requires GenerateFreshBookingId(store, candidates).Some?
    ensures var saved := SaveBooking(store, b.(bookingId := GenerateFreshBookingId(store, candidates)));
      saved == store + [b.(bookingId := GenerateFreshBookingId(store, candidates))] && IdsUnique(saved)
  {
    SaveBookingKeepsIdsUnique(store, b.(bookingId := GenerateFreshBookingId(store, candidates)));
  }

  /** A character of the phone pattern `[0-9\s\-\(\)]`. */
  predicate IsPhonePatternChar(c: char) {
    IsDigit(c) || IsRegexSpace(c) || c == '-' || c == '(' || c == ')'
  }

  /**
   `isValidPhoneNumber`: the trimmed text is an optional '+' followed by at
   least ten digits, regex spaces, dashes or parentheses.
   */
  function IsValidPhoneNumber(phone: string): (r: bool)
    ensures r ==> |JavaTrim(phone)| >= 10
    ensures r <==> var t := JavaTrim(phone);
      || (|t| >= 10 && forall i :: 0 <= i < |t| ==> IsPhonePatternChar(t[i]))
      || (|t| >= 11 && t[0] == '+' && forall i :: 1 <= i < |t| ==> IsPhonePatternChar(t[i]))
  {
    var t := JavaTrim(phone);
    if |t| == 0 then false
    else
      var body := if t[0] == '+' then t[1..] else t;
      assert forall i :: 1 <= i < |t| ==> t[i] == t[1..][i - 1];
      |body| >= 10 && forall i :: 0 <= i < |body| ==> IsPhonePatternChar(body[i])
  }

  /** `trimAndValidate`: the trimmed text, or null for null or blank input. */
  function TrimAndValidate(input: Option<string>): (r: Option<string>)
    ensures r.None? <==> input.None? || IsBlank(input.value)
    ensures r.Some? ==> r.value == JavaTrim(input.value) && |r.value| > 0
  {
    match input
    case None => None
    case Some(s) => if JavaTrim(s) == [] then None else Some(JavaTrim(s))
  }

  /** `isFieldValid`: present and not blank. */
  function IsFieldValid(field: Option<string>): (r: bool)
    ensures r <==> field.Some? && exists k :: 0 <= k < |field.value| && !IsJavaTrimmed(field.value[k])
  {
    if field.None? then false
    else
      BlankIffAllTrimmed(field.value);
      !IsBlank(field.value)
  }

  /** A value that survives `trimAndValidate` is a valid field, and only those do. */
  lemma {:induction false} ValidatedFieldIsValid(input: Option<string>)
    ensures IsFieldValid(TrimAndValidate(input)) <==> input.Some? && !IsBlank(input.value)
    ensures IsFieldValid(TrimAndValidate(input)) <==> IsFieldValid(input)
  {
    if input.Some? && !IsBlank(input.value) {
      TrimIdempotent(input.value, IsJavaTrimmed);
    }
  }
}
