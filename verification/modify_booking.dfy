/**
 The customer's "modify booking" rule (`ModifyBookingActivity`): look the
 booking up by id and phone, validate the edited fields, persist a modified
 copy and try to record the modification in the status history.
 */
module ModifyBooking {
  import opened Wrappers
  import opened Text
  import opened Seqs
  import opened BookingStatus
  import opened Booking
  import opened BookingStore

  /** Whether a stored booking is the one asked for: both id and phone set and equal. */
  predicate IsRequested(b: BookingRequest, id: Option<string>, phone: Option<string>) {
    && b.bookingId.Some? && id.Some? && b.bookingId == id
    && b.phoneNumber.Some? && phone.Some? && b.phoneNumber == phone
  }

  /** `loadBookingData`: the first stored booking with the given id and phone, or none. */
  function LoadBooking(store: Store, id: Option<string>, phone: Option<string>): (r: Option<BookingRequest>)
    ensures r.None? <==> forall j :: 0 <= j < |store| ==> !IsRequested(store[j], id, phone)
    ensures r.Some? ==> exists i :: 0 <= i < |store| && store[i] == r.value && IsRequested(r.value, id, phone)
                                    && forall j :: 0 <= j < i ==> !IsRequested(store[j], id, phone)
  {
    match FirstIndex(store, b => IsRequested(b, id, phone))
    case None => None
    case Some(i) => Some(store[i])
  }

  const ReconfirmReason: string := "Booking modified by customer - " + "moved to pending for re-confirmation"
  const ModifiedReason: string := "Booking modified by customer"

  /** The edited fields as read from the form: all trimmed, none blank, a date chosen. */
  datatype Edit = Edit(source: string, destination: string, vehicleType: string, date: Date)

  /** The validation step of `saveModifications`: the trimmed fields, or none when one is missing. */
  function ReadEdit(sourceText: string, destinationText: string, vehicleTypeText: string,
                    selectedDate: Option<Date>): (r: Option<Edit>)
    ensures r.None? <==> IsBlank(sourceText) || IsBlank(destinationText) || IsBlank(vehicleTypeText) || selectedDate.None?
    ensures r.Some? ==> r.value == Edit(JavaTrim(sourceText), JavaTrim(destinationText), JavaTrim(vehicleTypeText), selectedDate.value)
  {
    var source := JavaTrim(sourceText);
    var destination := JavaTrim(destinationText);
    var vehicleType := JavaTrim(vehicleTypeText);
    if source == [] || destination == [] || vehicleType == [] || selectedDate.None? then None
    else Some(Edit(source, destination, vehicleType, selectedDate.value))
  }

  /** What pressing "save" does. */
  datatype SaveOutcome =
    | MissingFields
    | NoChanges
      /** The stored list afterwards, the record now held, and whether the user is told it went back to Pending. */
    | Saved(store: Store, booking: BookingRequest, announcesPending: bool)

  /** The edit differs from the loaded booking in some field; a null vehicle type reads as "". */
  predicate HasChanges(current: BookingRequest, e: Edit): (r: bool)
    ensures !r <==>
      && current.source == e.source && current.destination == e.destination && current.travelDate == e.date
      && (current.vehicleType == Some(e.vehicleType) || (current.vehicleType.None? && e.vehicleType == ""))
  {
    || e.source != current.source
    || e.destination != current.destination
    || e.vehicleType != current.vehicleType.GetOr("")
    || e.date != current.travelDate
  }

  /** The record to persist: the modified copy, with the edited vehicle type. */
  function ModifiedRecord(current: BookingRequest, e: Edit, now: int): (r: BookingRequest)
    ensures r.source == e.source && r.destination == e.destination && r.travelDate == e.date
    ensures r.vehicleType == Some(e.vehicleType) && r.timestamp == now
    ensures r.bookingId == current.bookingId && r.phoneNumber == current.phoneNumber
    ensures r.status == Some(EffectiveStatus(current))
    ensures current.status.Some? ==> r.statusHistory == current.statusHistory
    ensures current.status.None? ==> r.statusHistory == [StatusChange(Pending, now, SubmittedReason)]
    ensures HistoryConsistent(current) ==> HistoryConsistent(r)
  {
    CreateModifiedCopy(current, e.source, e.destination, e.date, now).(vehicleType := Some(e.vehicleType))
  }

  /**
   `saveModifications`, as written. `now` is the clock reading of the copy
   and `later` the one of the status change. The status step calls
   `changeStatus`, which consults the transition table.
   */
  function SaveModifications(store: Store, current: BookingRequest, sourceText: string, destinationText: string,
                             vehicleTypeText: string, selectedDate: Option<Date>, now: int, later: int): (r: SaveOutcome)
    ensures var e := ReadEdit(sourceText, destinationText, vehicleTypeText, selectedDate);
      && (r.MissingFields? <==> e.None?)
      && (r.NoChanges? <==> e.Some? && !HasChanges(current, e.value))
      && (r.Saved? ==> r.booking == ModifiedRecord(current, e.value, now))
    ensures r.Saved? ==> r.store == UpdateBooking(store, r.booking)
    ensures r.Saved? ==> (r.announcesPending <==> current.status == Some(Confirmed))
  {
    match ReadEdit(sourceText, destinationText, vehicleTypeText, selectedDate)
    case None => MissingFields
    case Some(e) =>
      if !HasChanges(current, e) then NoChanges
      else
        var updated := ModifiedRecord(current, e, now);
        var store1 := UpdateBooking(store, updated);
        var originalStatus := updated.status;
        var step := if originalStatus == Some(Confirmed)
                    then ChangeStatus(updated, Pending, ReconfirmReason, later)
                    else ChangeStatus(updated, EffectiveStatus(updated), ModifiedReason, later);
        NeverBackToPending(Confirmed);
        NoSelfTransition(EffectiveStatus(updated));
        UpdateBookingIdempotent(store, updated);
        Saved(UpdateBooking(store1, step.1), step.1, originalStatus == Some(Confirmed))
  }

  /** Updating twice with the same record changes nothing more. */
  lemma {:induction false} UpdateBookingIdempotent(store: Store, b: BookingRequest)
    ensures UpdateBooking(UpdateBooking(store, b), b) == UpdateBooking(store, b)
  {
    var once := UpdateBooking(store, b);
    match FirstIndex(store, e => UpdateMatches(b, e))
    case None =>
      assert once[|store|] == b;
      assert once[|store| := b] == once;
    case Some(i) =>
      assert once[i] == b && UpdateMatches(b, once[i]);
      assert once[i := b] == once;
  }

  /**
   A modification of a Confirmed booking announces a return to Pending, but
   the persisted booking is still Confirmed: Confirmed to Pending is not a
   legal transition, so the status step is refused.
   */
  lemma {:induction false} ConfirmedBookingStaysConfirmed(store: Store, current: BookingRequest, sourceText: string,
                                       destinationText: string, vehicleTypeText: string,
                                       selectedDate: Option<Date>, now: int, later: int)
    requires current.status == Some(Confirmed)
    ensures var e := ReadEdit(sourceText, destinationText, vehicleTypeText, selectedDate);
      var r := SaveModifications(store, current, sourceText, destinationText, vehicleTypeText, selectedDate, now, later);
      && (r.Saved? <==> e.Some? && HasChanges(current, e.value))
      && (r.Saved? ==> r.announcesPending && r.booking.status == Some(Confirmed)
                       && r.booking.statusHistory == current.statusHistory)
  {
  }

  /** No save ever appends a history entry: the "modified by customer" note is never recorded. */
  lemma {:induction false} ModificationNeverRecorded(store: Store, current: BookingRequest, sourceText: string,
                                  destinationText: string, vehicleTypeText: string,
                                  selectedDate: Option<Date>, now: int, later: int)
    requires current.status.Some?
    ensures var r := SaveModifications(store, current, sourceText, destinationText, vehicleTypeText, selectedDate, now, later);
      r.Saved? ==> r.booking.status == current.status && r.booking.statusHistory == current.statusHistory
  {
  }

  /**
   The history step as the comments describe it: a Confirmed booking goes
   back to Pending with a re-confirmation entry; any other booking keeps its
   status and gains a "modified by customer" entry.
   */
  function RecordModification(b: BookingRequest, later: int): (r: BookingRequest)
    requires b.status.Some?
    ensures b.status == Some(Confirmed) ==>
      r.status == Some(Pending) && r.statusHistory == b.statusHistory + [StatusChange(Pending, later, ReconfirmReason)]
    ensures b.status != Some(Confirmed) ==>
      r.status == b.status && r.statusHistory == b.statusHistory + [StatusChange(b.status.value, later, ModifiedReason)]
    ensures HistoryConsistent(r)
    ensures r.bookingId == b.bookingId && r.timestamp == b.timestamp
  {
    if b.status == Some(Confirmed) then
      b.(status := Some(Pending), statusHistory := b.statusHistory + [StatusChange(Pending, later, ReconfirmReason)])
    else
      b.(statusHistory := b.statusHistory + [StatusChange(b.status.value, later, ModifiedReason)])
  }

  /** `saveModifications` with the history step as intended. */
  function SaveModificationsIntended(store: Store, current: BookingRequest, sourceText: string, destinationText: string,
                                     vehicleTypeText: string, selectedDate: Option<Date>, now: int, later: int): (r: SaveOutcome)
    ensures var e := ReadEdit(sourceText, destinationText, vehicleTypeText, selectedDate);
      && (r.MissingFields? <==> e.None?)
      && (r.NoChanges? <==> e.Some? && !HasChanges(current, e.value))
      && (r.Saved? ==> r.booking == RecordModification(ModifiedRecord(current, e.value, now), later))
    ensures r.Saved? && r.announcesPending ==> r.booking.status == Some(Pending)
    ensures r.Saved? ==> (r.announcesPending <==> current.status == Some(Confirmed))
    ensures r.Saved? ==> HistoryConsistent(r.booking)
  {
    match ReadEdit(sourceText, destinationText, vehicleTypeText, selectedDate)
    case None => MissingFields
    case Some(e) =>
      if !HasChanges(current, e) then NoChanges
      else
        var updated := ModifiedRecord(current, e, now);
        var recorded := RecordModification(updated, later);
        Saved(UpdateBooking(UpdateBooking(store, updated), recorded), recorded, updated.status == Some(Confirmed))
  }

  /**
   Two writes of records with the same id and timestamp land on the position
   of the first booking with that id when no booking has that timestamp.
   */
  lemma {:induction false} UpdateTwiceInPlace(store: Store, x: BookingRequest, y: BookingRequest, i: nat)
    requires x.bookingId.Some? && y.bookingId == x.bookingId && y.timestamp == x.timestamp
    requires i < |store| && store[i].bookingId == x.bookingId
    requires forall j :: 0 <= j < i ==> store[j].bookingId != x.bookingId
    requires forall j :: 0 <= j < |store| ==> store[j].timestamp != x.timestamp
    ensures UpdateBooking(UpdateBooking(store, x), y) == store[i := y]
  {
    assert forall j :: 0 <= j < i ==> !UpdateMatches(x, store[j]);
    assert UpdateMatches(x, store[i]);
    var store1 := UpdateBooking(store, x);
    assert store1 == store[i := x];
    assert forall j :: 0 <= j < i ==> !UpdateMatches(y, store1[j]);
    assert UpdateMatches(y, store1[i]);
    assert UpdateBooking(store1, y) == store1[i := y];
    assert store1[i := y] == store[i := y];
  }

  /**
   When the loaded booking is stored and no stored booking has the copy's
   fresh timestamp, the save lands on the loaded booking's position: the
   store keeps its length and only that position changes.
   */
  lemma {:induction false} SavedInPlace(store: Store, current: BookingRequest, sourceText: string, destinationText: string,
                     vehicleTypeText: string, selectedDate: Option<Date>, now: int, later: int, i: nat)
    requires current.bookingId.Some?
    requires i < |store| && store[i].bookingId == current.bookingId
    requires forall j :: 0 <= j < i ==> store[j].bookingId != current.bookingId
    requires forall j :: 0 <= j < |store| ==> store[j].timestamp != now
    ensures var r := SaveModifications(store, current, sourceText, destinationText, vehicleTypeText, selectedDate, now, later);
      r.Saved? ==> r.store == store[i := r.booking]
  {
    var r := SaveModifications(store, current, sourceText, destinationText, vehicleTypeText, selectedDate, now, later);
    if r.Saved? {
      UpdateTwiceInPlace(store, r.booking, r.booking, i);
      UpdateBookingIdempotent(store, r.booking);
    }
  }

  /** The same for the intended save: original position, original length. */
  lemma {:induction false} IntendedSavedInPlace(store: Store, current: BookingRequest, sourceText: string, destinationText: string,
                             vehicleTypeText: string, selectedDate: Option<Date>, now: int, later: int, i: nat)
    requires current.bookingId.Some?
    requires i < |store| && store[i].bookingId == current.bookingId
    requires forall j :: 0 <= j < i ==> store[j].bookingId != current.bookingId
    requires forall j :: 0 <= j < |store| ==> store[j].timestamp != now
    ensures var r := SaveModificationsIntended(store, current, sourceText, destinationText, vehicleTypeText, selectedDate, now, later);
      r.Saved? ==> r.store == store[i := r.booking]
  {
    var r := SaveModificationsIntended(store, current, sourceText, destinationText, vehicleTypeText, selectedDate, now, later);
    if r.Saved? {
      var e := ReadEdit(sourceText, destinationText, vehicleTypeText, selectedDate).value;
      UpdateTwiceInPlace(store, ModifiedRecord(current, e, now), r.booking, i);
    }
  }
}
