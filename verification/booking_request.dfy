/**
 A single booking (`BookingRequest`) with its append-only status history
 (`StatusChange` entries). Fields that Java may hold as null are `Option`s;
 the clock is the `now` parameter of the operations that read it.
 */
module Booking {
  import opened Wrappers
  import opened BookingStatus

  /** A calendar date without time (threeten `LocalDate`). */
  datatype Date = Date(year: int, month: int, day: int)

  /** One history entry: the status entered, when, and why. */
  datatype StatusChange = StatusChange(status: Status, timestamp: int, reason: string)

  datatype BookingRequest = BookingRequest(
    source: string,
    destination: string,
    travelDate: Date,
    timestamp: int,
    status: Option<Status>,
    statusHistory: seq<StatusChange>,
    phoneNumber: Option<string>,
    vehicleType: Option<string>,
    bookingId: Option<string>)

  /** The status every reader uses: a null status counts as Pending. */
  function EffectiveStatus(b: BookingRequest): Status {
    b.status.GetOr(Pending)
  }

  const SubmittedReason: string := "Booking request submitted"

  /** The record invariant: a status is set and the last history entry records it. */
  predicate HistoryConsistent(b: BookingRequest) {
    && b.status.Some?
    && |b.statusHistory| > 0
    && b.statusHistory[|b.statusHistory| - 1].status == b.status.value
  }

  /** The statuses of the history entries, oldest first. */
  function HistoryStatuses(h: seq<StatusChange>): (r: seq<Status>)
    ensures |r| == |h|
    ensures forall i :: 0 <= i < |h| ==> r[i] == h[i].status
  {
    seq(|h|, i requires 0 <= i < |h| => h[i].status)
  }

  /** The history starts with Pending and walks the transition table. */
  ghost predicate HistoryIsLegalPath(b: BookingRequest) {
    && |b.statusHistory| > 0
    && b.statusHistory[0].status == Pending
    && IsLegalChain(HistoryStatuses(b.statusHistory))
  }

  /** `new BookingRequest(source, destination, travelDate)` at clock reading `now`. */
  function NewBooking(source: string, destination: string, travelDate: Date, now: int): (b: BookingRequest)
    ensures b.status == Some(Pending)
    ensures b.statusHistory == [StatusChange(Pending, now, SubmittedReason)]
    ensures HistoryConsistent(b) && HistoryIsLegalPath(b)
    ensures b.source == source && b.destination == destination && b.travelDate == travelDate
    ensures b.timestamp == now
    ensures b.bookingId.None? && b.phoneNumber.None? && b.vehicleType.None?
  {
    BookingRequest(source, destination, travelDate, now, Some(Pending),
                   [StatusChange(Pending, now, SubmittedReason)], None, None, None)
  }

  /** The restoring constructor: keeps timestamp and status, and reads a null history as empty. */
  function Restore(source: string, destination: string, travelDate: Date, timestamp: int,
                   status: Option<Status>, statusHistory: Option<seq<StatusChange>>): (b: BookingRequest)
    ensures b.timestamp == timestamp && b.status == status
    ensures b.statusHistory == statusHistory.GetOr([])
    ensures b.source == source && b.destination == destination && b.travelDate == travelDate
    ensures b.bookingId.None? && b.phoneNumber.None? && b.vehicleType.None?
  {
    BookingRequest(source, destination, travelDate, timestamp, status,
                   statusHistory.GetOr([]), None, None, None)
  }

  /**
   `changeStatus(newStatus, reason)` at clock reading `now`: the success flag
   and the booking afterwards. A null status is set to Pending even when the
   change is refused.
   */
  function ChangeStatus(b: BookingRequest, newStatus: Status, reason: string, now: int): (r: (bool, BookingRequest))
    ensures r.0 <==> CanTransitionTo(EffectiveStatus(b), newStatus)
    ensures r.0 ==> r.1 == b.(status := Some(newStatus),
                              statusHistory := b.statusHistory + [StatusChange(newStatus, now, reason)])
    ensures !r.0 ==> r.1 == b.(status := Some(EffectiveStatus(b)))
  {
    var current := EffectiveStatus(b);
    if !CanTransitionTo(current, newStatus) then
      (false, b.(status := Some(current)))
    else
      (true, b.(status := Some(newStatus),
                statusHistory := b.statusHistory + [StatusChange(newStatus, now, reason)]))
  }

  /** A status change never removes or rewrites history and keeps the record invariant. */
  lemma {:induction false} ChangeStatusKeepsHistory(b: BookingRequest, newStatus: Status, reason: string, now: int)
    requires HistoryConsistent(b)
    ensures var after := ChangeStatus(b, newStatus, reason, now).1;
      && HistoryConsistent(after)
      && |after.statusHistory| >= |b.statusHistory|
      && after.statusHistory[..|b.statusHistory|] == b.statusHistory
  {
    var after := ChangeStatus(b, newStatus, reason, now).1;
    assert after.statusHistory[..|b.statusHistory|] == b.statusHistory;
  }

  /** A status change keeps the history a legal walk from Pending. */
  lemma {:induction false} ChangeStatusKeepsLegalPath(b: BookingRequest, newStatus: Status, reason: string, now: int)
    requires HistoryConsistent(b) && HistoryIsLegalPath(b)
    ensures HistoryIsLegalPath(ChangeStatus(b, newStatus, reason, now).1)
  {
    var r := ChangeStatus(b, newStatus, reason, now);
    if r.0 {
      var h, h' := b.statusHistory, r.1.statusHistory;
      var c, c' := HistoryStatuses(h), HistoryStatuses(h');
      forall i | 0 < i < |c'| ensures CanTransitionTo(c'[i - 1], c'[i]) {
        if i < |c| {
          assert c'[i - 1] == c[i - 1] && c'[i] == c[i];
        } else {
          assert c'[i - 1] == h[|h| - 1].status == b.status.value;
        }
      }
    }
  }

  /** Apply a series of `(status, reason, time)` requests with `changeStatus`, ignoring refusals. */
  function ApplyChanges(b: BookingRequest, requests: seq<(Status, string, int)>): BookingRequest
    decreases |requests|
  {
    if |requests| == 0 then b
    else
      var (s, why, t) := requests[0];
      ApplyChanges(ChangeStatus(b, s, why, t).1, requests[1..])
  }

  /** Whatever is asked, a booking's history only grows and keeps its earlier entries. */
  lemma {:induction false} ApplyChangesOnlyAppends(b: BookingRequest, requests: seq<(Status, string, int)>)
    requires HistoryConsistent(b) && HistoryIsLegalPath(b)
    ensures var after := ApplyChanges(b, requests);
      && HistoryConsistent(after) && HistoryIsLegalPath(after)
      && |after.statusHistory| >= |b.statusHistory|
      && after.statusHistory[..|b.statusHistory|] == b.statusHistory
    decreases |requests|
  {
    if |requests| > 0 {
      var (s, why, t) := requests[0];
      var next := ChangeStatus(b, s, why, t).1;
      ChangeStatusKeepsHistory(b, s, why, t);
      ChangeStatusKeepsLegalPath(b, s, why, t);
      ApplyChangesOnlyAppends(next, requests[1..]);
      var after := ApplyChanges(b, requests);
      assert after == ApplyChanges(next, requests[1..]);
      assert after.statusHistory[..|b.statusHistory|] == next.statusHistory[..|next.statusHistory|][..|b.statusHistory|];
    }
  }

  /** A legally walked history holds at most four entries: Pending plus three transitions. */
  lemma {:induction false} LegalHistoryIsShort(b: BookingRequest)
    requires HistoryIsLegalPath(b)
    ensures |b.statusHistory| <= 4
  {
    LegalChainsAreShort(HistoryStatuses(b.statusHistory));
  }

  /** `getLatestStatusChange()`: the last history entry, or null for an empty history. */
  function LatestStatusChange(b: BookingRequest): (r: Option<StatusChange>)
    ensures r.None? <==> |b.statusHistory| == 0
    ensures r.Some? ==> r.value == b.statusHistory[|b.statusHistory| - 1]
  {
    if |b.statusHistory| == 0 then None else Some(b.statusHistory[|b.statusHistory| - 1])
  }

  /** On a consistent record the latest history entry names the current status. */
  lemma {:induction false} LatestMatchesStatus(b: BookingRequest)
    requires HistoryConsistent(b)
    ensures LatestStatusChange(b).Some? && LatestStatusChange(b).value.status == EffectiveStatus(b)
  {
  }

  /**
   `createModifiedCopy(newSource, newDestination, newTravelDate)` at clock
   reading `now`: a fresh booking that takes over id, phone and vehicle type,
   and, when the original status is set, the status and the whole history.
   */
  function CreateModifiedCopy(b: BookingRequest, newSource: string, newDestination: string,
                              newTravelDate: Date, now: int): (c: BookingRequest)
    ensures c.source == newSource && c.destination == newDestination && c.travelDate == newTravelDate
    ensures c.timestamp == now
    ensures c.bookingId == b.bookingId && c.phoneNumber == b.phoneNumber && c.vehicleType == b.vehicleType
    ensures b.status.Some? ==> c.status == b.status && c.statusHistory == b.statusHistory
    ensures b.status.None? ==> c.status == Some(Pending) && c.statusHistory == [StatusChange(Pending, now, SubmittedReason)]
    ensures HistoryConsistent(b) ==> HistoryConsistent(c)
  {
    var copy := NewBooking(newSource, newDestination, newTravelDate, now)
      .(bookingId := b.bookingId, phoneNumber := b.phoneNumber, vehicleType := b.vehicleType);
    if b.status.Some? then copy.(statusHistory := b.statusHistory, status := b.status) else copy
  }

  /**
   `getStatusDisplayText()`: icon and display name of the effective status,
   with the record's null status normalised to Pending as a side effect.
   */
  function StatusDisplayText(b: BookingRequest): (r: (string, BookingRequest))
    ensures r.0 == Icon(EffectiveStatus(b)) + " " + DisplayName(EffectiveStatus(b))
    ensures r.1.status.Some? && EffectiveStatus(r.1) == EffectiveStatus(b)
    ensures r.1.statusHistory == b.statusHistory
    ensures b.status.Some? ==> r.1 == b
    ensures b.status.None? ==> r.1 == b.(status := Some(Pending))
  {
    var s := EffectiveStatus(b);
    (Icon(s) + " " + DisplayName(s), b.(status := Some(s)))
  }
}
