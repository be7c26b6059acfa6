/**
 The database rows of the Room layer (`BookingEntity`, `SearchRecordEntity`,
 `UserEntity`) and their conversions to and from the domain objects. A row
 column Java may hold as null is an `Option` where the domain field is one
 too, or where the conversion treats null specially.
 */
module Entities {
  import opened Wrappers
  import opened BookingStatus
  import opened Booking
  import opened SearchStore
  import opened Users

  // ---------------------------------------------------------------------
  // Bookings
  // ---------------------------------------------------------------------

  /** A row of the `bookings` table; a stored history column may be null. */
  datatype BookingEntity = BookingEntity(
    bookingId: Option<string>,
    source: string,
    destination: string,
    travelDate: Date,
    timestamp: int,
    status: Option<Status>,
    statusHistory: Option<seq<StatusChange>>,
    phoneNumber: Option<string>,
    vehicleType: Option<string>)

  /**
   `toBookingRequest`: the restoring constructor, then the id, phone and
   vehicle type. A null history is read as an empty one; a null status
   stays null.
   */
  function ToBookingRequest(e: BookingEntity): (b: BookingRequest)
    ensures b.statusHistory == e.statusHistory.GetOr([])
    ensures b.status == e.status && b.timestamp == e.timestamp
    ensures b.bookingId == e.bookingId && b.phoneNumber == e.phoneNumber && b.vehicleType == e.vehicleType
    ensures b.source == e.source && b.destination == e.destination && b.travelDate == e.travelDate
  {
    Restore(e.source, e.destination, e.travelDate, e.timestamp, e.status, e.statusHistory)
      .(bookingId := e.bookingId, phoneNumber := e.phoneNumber, vehicleType := e.vehicleType)
  }

  /** `new BookingEntity(booking)`: storing a booking and reading it back gives the same booking. */
  function FromBooking(b: BookingRequest): (e: BookingEntity)
    ensures ToBookingRequest(e) == b
    ensures e.statusHistory.Some?
  {
    BookingEntity(b.bookingId, b.source, b.destination, b.travelDate, b.timestamp, b.status,
                  Some(b.statusHistory), b.phoneNumber, b.vehicleType)
  }

  /** A row read and written back is unchanged, except that a null history becomes empty. */
  lemma {:induction false} BookingRowRoundTrip(e: BookingEntity)
    ensures FromBooking(ToBookingRequest(e)) == e.(statusHistory := Some(e.statusHistory.GetOr([])))
    ensures e.statusHistory.Some? ==> FromBooking(ToBookingRequest(e)) == e
  {
  }

  /** Storing keeps the record invariant of a booking. */
  lemma {:induction false} StoringKeepsHistoryConsistent(b: BookingRequest)
    requires HistoryConsistent(b)
    ensures HistoryConsistent(ToBookingRequest(FromBooking(b)))
    ensures EffectiveStatus(ToBookingRequest(FromBooking(b))) == EffectiveStatus(b)
  {
  }

  // ---------------------------------------------------------------------
  // Search records
  // ---------------------------------------------------------------------

  /** A row of `search_records`; `id` is the key the database assigns on insert. */
  datatype SearchRecordEntity = SearchRecordEntity(
    id: int,
    searchQuery: string,
    phoneNumber: string,
    customerName: string,
    timestamp: string,
    latitude: Float64,
    longitude: Float64,
    locationAvailable: bool,
    vehicleInterest: Option<string>,
    status: string,
    adminNotes: string)

  /** `toSearchRecord`: every column except the key is copied over the record's defaults. */
  function ToSearchRecord(e: SearchRecordEntity): (r: SearchRecord)
    ensures r.searchQuery == e.searchQuery && r.phoneNumber == e.phoneNumber
    ensures r.customerName == e.customerName && r.timestamp == e.timestamp
    ensures r.latitude == e.latitude && r.longitude == e.longitude
    ensures r.locationAvailable == e.locationAvailable && r.vehicleInterest == e.vehicleInterest
    ensures r.status == e.status && r.adminNotes == e.adminNotes
  {
    SearchRecord(e.searchQuery, e.phoneNumber, e.customerName, e.timestamp, e.latitude, e.longitude,
                 e.locationAvailable, e.vehicleInterest, e.status, e.adminNotes)
  }

  /**
   `new SearchRecordEntity(record)`: the key is left at Java's default 0 for
   the database to assign; reading the row back gives the same record.
   */
  function FromSearchRecord(r: SearchRecord): (e: SearchRecordEntity)
    ensures ToSearchRecord(e) == r
    ensures e.id == 0
  {
    SearchRecordEntity(0, r.searchQuery, r.phoneNumber, r.customerName, r.timestamp, r.latitude,
                       r.longitude, r.locationAvailable, r.vehicleInterest, r.status, r.adminNotes)
  }

  /** A row read and written back differs at most in its key. */
  lemma {:induction false} SearchRowRoundTrip(e: SearchRecordEntity)
    ensures FromSearchRecord(ToSearchRecord(e)) == e.(id := 0)
  {
  }

  /** Rows that differ only in their key read back as the same record. */
  lemma {:induction false} SearchKeyIsNotRead(e: SearchRecordEntity, id: int)
    ensures ToSearchRecord(e.(id := id)) == ToSearchRecord(e)
  {
  }

  // ---------------------------------------------------------------------
  // Users
  // ---------------------------------------------------------------------

  /** A row of the `users` table. */
  datatype UserEntity = UserEntity(
    userId: string,
    username: string,
    email: string,
    phoneNumber: string,
    password: string,
    role: UserRole,
    fullName: string,
    createdAt: int,
    isActive: bool,
    licenseNumber: Option<string>,
    vehicleDetails: Option<string>,
    isAvailable: bool)

  /**
   `toUser`: a `new User()` (clock time and defaults) whose every field is
   then overwritten from the row, so the clock reading `now` is lost.
   */
  function ToUser(e: UserEntity, now: int): (u: User)
    ensures u.userId == e.userId && u.username == e.username && u.email == e.email
    ensures u.phoneNumber == e.phoneNumber && u.password == e.password && u.role == e.role
    ensures u.fullName == e.fullName && u.createdAt == e.createdAt && u.isActive == e.isActive
    ensures u.licenseNumber == e.licenseNumber && u.vehicleDetails == e.vehicleDetails
    ensures u.isAvailable == e.isAvailable
  {
    var blank := User("", "", "", "", "", Passenger, "", now, true, None, None, false);
    blank.(userId := e.userId, username := e.username, email := e.email, phoneNumber := e.phoneNumber,
           password := e.password, role := e.role, fullName := e.fullName, createdAt := e.createdAt,
           isActive := e.isActive, licenseNumber := e.licenseNumber, vehicleDetails := e.vehicleDetails,
           isAvailable := e.isAvailable)
  }

  /** `new UserEntity(user)`: storing an account and reading it back gives the same account, at any clock reading. */
  function FromUser(u: User): (e: UserEntity)
    ensures forall now :: ToUser(e, now) == u
  {
    UserEntity(u.userId, u.username, u.email, u.phoneNumber, u.password, u.role, u.fullName,
               u.createdAt, u.isActive, u.licenseNumber, u.vehicleDetails, u.isAvailable)
  }

  /** A row read and written back is unchanged. */
  lemma {:induction false} UserRowRoundTrip(e: UserEntity, now: int)
    ensures FromUser(ToUser(e, now)) == e
  {
  }
}
