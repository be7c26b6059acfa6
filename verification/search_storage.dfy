/**
 The search-lead store (`SearchStorage`): customer vehicle searches kept in
 one table, updated by phone number and timestamp, and summarised for the
 admin dashboard. The table is a sequence in row order; each update writes
 back the row it read.
 */
module SearchStore {
  import opened Wrappers
  import opened Text
  import opened Seqs
  import opened Sorting

  /** The raw bits of a Java `double`; coordinates are only copied, never computed with. */
  type Float64 = bv64

  /** `VehicleSearchActivity.SearchRecord`; a null vehicle interest is None. */
  datatype SearchRecord = SearchRecord(
    searchQuery: string,
    phoneNumber: string,
    customerName: string,
    timestamp: string,
    latitude: Float64,
    longitude: Float64,
    locationAvailable: bool,
    vehicleInterest: Option<string>,
    status: string,
    adminNotes: string)

  /** The `search_records` table in row order. */
  type SearchTable = seq<SearchRecord>

  /** A record with the defaults of `new SearchRecord()` for the fields the search screen does not set. */
  function NewSearchRecord(searchQuery: string, phoneNumber: string, customerName: string, timestamp: string,
                           latitude: Float64, longitude: Float64, locationAvailable: bool): (r: SearchRecord)
    ensures r.vehicleInterest == Some("") && r.status == "New" && r.adminNotes == ""
    ensures r.phoneNumber == phoneNumber && r.timestamp == timestamp
  {
    SearchRecord(searchQuery, phoneNumber, customerName, timestamp, latitude, longitude, locationAvailable,
                 Some(""), "New", "")
  }

  predicate HasKey(r: SearchRecord, phoneNumber: string, timestamp: string) {
    r.phoneNumber == phoneNumber && r.timestamp == timestamp
  }

  /** No two rows share a (phone, timestamp) pair. */
  predicate KeysUnique(table: SearchTable) {
    forall i, j :: 0 <= i < j < |table| ==>
      !HasKey(table[j], table[i].phoneNumber, table[i].timestamp)
  }

  /** `getSearchRecord(phone, timestamp)` (`LIMIT 1`): the first row with that pair. */
  function FindRecord(table: SearchTable, phoneNumber: string, timestamp: string): (r: Option<nat>)
    ensures r.None? <==> forall j :: 0 <= j < |table| ==> !HasKey(table[j], phoneNumber, timestamp)
    ensures r.Some? ==> r.value < |table| && HasKey(table[r.value], phoneNumber, timestamp)
    ensures r.Some? ==> forall j :: 0 <= j < r.value ==> !HasKey(table[j], phoneNumber, timestamp)
  {
    FirstIndex(table, (rec: SearchRecord) => HasKey(rec, phoneNumber, timestamp))
  }

  /** `saveSearchRecord`: inserts the record unless a row already has its phone number and timestamp. */
  function SaveSearchRecord(table: SearchTable, record: SearchRecord): (r: SearchTable)
    ensures (exists j :: 0 <= j < |table| && HasKey(table[j], record.phoneNumber, record.timestamp)) ==> r == table
    ensures (forall j :: 0 <= j < |table| ==> !HasKey(table[j], record.phoneNumber, record.timestamp)) ==> r == table + [record]
    ensures KeysUnique(table) ==> KeysUnique(r)
  {
    if FindRecord(table, record.phoneNumber, record.timestamp).Some? then table else table + [record]
  }

  /** Saving the same record twice stores it once. */
  lemma {:induction false} SaveSearchRecordIdempotent(table: SearchTable, record: SearchRecord)
    ensures SaveSearchRecord(SaveSearchRecord(table, record), record) == SaveSearchRecord(table, record)
  {
    var once := SaveSearchRecord(table, record);
    if once != table {
      assert HasKey(once[|table|], record.phoneNumber, record.timestamp);
    }
  }

  // ---------------------------------------------------------------------
  // Vehicle interest
  // ---------------------------------------------------------------------

  /**
   The row `updateVehicleInterest` picks for a phone number: the first row,
   in table order, with the greatest timestamp string among that phone's rows.
   */
  function MostRecentFor(table: SearchTable, phoneNumber: string): (r: Option<nat>)
    ensures r.None? <==> forall j :: 0 <= j < |table| ==> table[j].phoneNumber != phoneNumber
    ensures r.Some? ==> r.value < |table| && table[r.value].phoneNumber == phoneNumber
    ensures r.Some? ==> forall j :: 0 <= j < |table| && table[j].phoneNumber == phoneNumber ==>
      CompareTo(table[j].timestamp, table[r.value].timestamp) <= 0
    ensures r.Some? ==> forall j :: 0 <= j < r.value && table[j].phoneNumber == phoneNumber ==>
      CompareTo(table[j].timestamp, table[r.value].timestamp) < 0
  {
    if |table| == 0 then None
    else
      var init, last := table[..|table| - 1], table[|table| - 1];
      var best := MostRecentFor(init, phoneNumber);
      PrefixRows(table, init);
      if last.phoneNumber != phoneNumber then best
      else if best.None? then
        CompareToAntisymmetric(last.timestamp, last.timestamp);
        Some(|table| - 1)
      else if CompareTo(last.timestamp, init[best.value].timestamp) > 0 then
        NewerRowWins(init, phoneNumber, best.value, last);
        CompareToAntisymmetric(last.timestamp, last.timestamp);
        Some(|table| - 1)
      else best
  }

  /** The rows of a table's prefix are its first rows. */
  lemma {:induction false} PrefixRows(table: SearchTable, init: SearchTable)
    requires |table| > 0 && init == table[..|table| - 1]
    ensures forall j :: 0 <= j < |init| ==> table[j] == init[j]
  {
  }

  /** A row strictly newer than the current best is newer than every earlier row of that phone. */
  lemma {:induction false} NewerRowWins(init: SearchTable, phoneNumber: string, k: nat, last: SearchRecord)
    requires k < |init|
    requires forall j :: 0 <= j < |init| && init[j].phoneNumber == phoneNumber ==>
      CompareTo(init[j].timestamp, init[k].timestamp) <= 0
    requires CompareTo(last.timestamp, init[k].timestamp) > 0
    ensures forall j :: 0 <= j < |init| && init[j].phoneNumber == phoneNumber ==>
      CompareTo(init[j].timestamp, last.timestamp) < 0
  {
    CompareToAntisymmetric(last.timestamp, init[k].timestamp);
    forall j | 0 <= j < |init| && init[j].phoneNumber == phoneNumber
      ensures CompareTo(init[j].timestamp, last.timestamp) < 0
    {
      CompareToTransitive(init[j].timestamp, init[k].timestamp, last.timestamp);
      CompareToAntisymmetric(init[j].timestamp, last.timestamp);
    }
  }

  /** The interest after an update: set when null or empty, otherwise appended after ", ". */
  function AddInterest(current: Option<string>, interest: string): (r: string)
    ensures current.None? || current.value == [] ==> r == interest
    ensures current.Some? && current.value != [] ==> IsPrefix(current.value, r) && r[|current.value|..] == ", " + interest
  {
    if current.None? || current.value == [] then interest else current.value + ", " + interest
  }

  /** `updateVehicleInterest(phone, interest)`: only the phone's most recent row changes, and only its interest. */
  function UpdateVehicleInterest(table: SearchTable, phoneNumber: string, interest: string): (r: SearchTable)
    ensures |r| == |table|
    ensures MostRecentFor(table, phoneNumber).None? ==> r == table
    ensures MostRecentFor(table, phoneNumber).Some? ==>
      var k := MostRecentFor(table, phoneNumber).value;
      r == table[k := table[k].(vehicleInterest := Some(AddInterest(table[k].vehicleInterest, interest)))]
  {
    match MostRecentFor(table, phoneNumber)
    case None => table
    case Some(k) => table[k := table[k].(vehicleInterest := Some(AddInterest(table[k].vehicleInterest, interest)))]
  }

  /** An interest update touches no key, so the table's keys stay unique. */
  lemma {:induction false} UpdateVehicleInterestKeepsKeys(table: SearchTable, phoneNumber: string, interest: string)
    requires KeysUnique(table)
    ensures KeysUnique(UpdateVehicleInterest(table, phoneNumber, interest))
  {
    var r := UpdateVehicleInterest(table, phoneNumber, interest);
    assert forall i :: 0 <= i < |r| ==> r[i].phoneNumber == table[i].phoneNumber && r[i].timestamp == table[i].timestamp;
  }

  // ---------------------------------------------------------------------
  // Listing and per-field updates
  // ---------------------------------------------------------------------

  /** Newest first: `r2.timestamp.compareTo(r1.timestamp)` as "may come before". */
  function NewestFirst(a: SearchRecord, b: SearchRecord): bool {
    CompareTo(b.timestamp, a.timestamp) <= 0
  }

  lemma {:induction false} NewestFirstIsPreorder()
    ensures Total(NewestFirst) && Transitive(NewestFirst)
  {
    forall a: SearchRecord, b: SearchRecord ensures NewestFirst(a, b) || NewestFirst(b, a) {
      CompareToAntisymmetric(a.timestamp, b.timestamp);
    }
    forall a: SearchRecord, b: SearchRecord, c: SearchRecord | NewestFirst(a, b) && NewestFirst(b, c)
      ensures NewestFirst(a, c)
    {
      CompareToTransitive(c.timestamp, b.timestamp, a.timestamp);
    }
  }

  /** `getAllSearchRecords`: every row, ordered by non-increasing timestamp string. */
  function GetAllSearchRecords(table: SearchTable): (r: seq<SearchRecord>)
    ensures |r| == |table| && multiset(r) == multiset(table)
    ensures forall i, j :: 0 <= i < j < |r| ==> CompareTo(r[i].timestamp, r[j].timestamp) >= 0
  {
    var r := Sort(table, NewestFirst);
    NewestFirstIsPreorder();
    SortIsSorted(table, NewestFirst);
    assert forall i, j :: 0 <= i < j < |r| ==> NewestFirst(r[i], r[j]);
    forall i, j | 0 <= i < j < |r| ensures CompareTo(r[i].timestamp, r[j].timestamp) >= 0 {
      CompareToAntisymmetric(r[i].timestamp, r[j].timestamp);
    }
    r
  }

  /** `updateSearchStatus`: the status of the row with that key, and nothing else. */
  function UpdateSearchStatus(table: SearchTable, phoneNumber: string, timestamp: string, newStatus: string): (r: SearchTable)
    ensures FindRecord(table, phoneNumber, timestamp).None? ==> r == table
    ensures FindRecord(table, phoneNumber, timestamp).Some? ==>
      var k := FindRecord(table, phoneNumber, timestamp).value;
      r == table[k := table[k].(status := newStatus)]
  {
    match FindRecord(table, phoneNumber, timestamp)
    case None => table
    case Some(k) => table[k := table[k].(status := newStatus)]
  }

  /** `updateAdminNotes`: the notes of the row with that key, and nothing else. */
  function UpdateAdminNotes(table: SearchTable, phoneNumber: string, timestamp: string, notes: string): (r: SearchTable)
    ensures FindRecord(table, phoneNumber, timestamp).None? ==> r == table
    ensures FindRecord(table, phoneNumber, timestamp).Some? ==>
      var k := FindRecord(table, phoneNumber, timestamp).value;
      r == table[k := table[k].(adminNotes := notes)]
  {
    match FindRecord(table, phoneNumber, timestamp)
    case None => table
    case Some(k) => table[k := table[k].(adminNotes := notes)]
  }

  /** With unique keys, a status update reaches exactly the row carrying the key. */
  lemma {:induction false} StatusUpdateHitsKeyedRow(table: SearchTable, i: nat, newStatus: string)
    requires KeysUnique(table) && i < |table|
    ensures var r := UpdateSearchStatus(table, table[i].phoneNumber, table[i].timestamp, newStatus);
      && r[i].status == newStatus
      && r[i] == table[i].(status := newStatus)
      && forall j :: 0 <= j < |table| && j != i ==> r[j] == table[j]
  {
    var k := FindRecord(table, table[i].phoneNumber, table[i].timestamp);
    assert HasKey(table[i], table[i].phoneNumber, table[i].timestamp);
    assert k.Some? && k.value <= i;
    assert !HasKey(table[i], table[k.value].phoneNumber, table[k.value].timestamp) || k.value == i;
    assert k.value == i;
  }

  /** With unique keys, a notes update reaches exactly the row carrying the key, and keeps the keys unique. */
  lemma {:induction false} NotesUpdateHitsKeyedRow(table: SearchTable, i: nat, notes: string)
    requires KeysUnique(table) && i < |table|
    ensures var r := UpdateAdminNotes(table, table[i].phoneNumber, table[i].timestamp, notes);
      && r[i] == table[i].(adminNotes := notes)
      && (forall j :: 0 <= j < |table| && j != i ==> r[j] == table[j])
      && KeysUnique(r)
  {
    var k := FindRecord(table, table[i].phoneNumber, table[i].timestamp);
    assert HasKey(table[i], table[i].phoneNumber, table[i].timestamp);
    assert k.Some? && k.value <= i;
    assert !HasKey(table[i], table[k.value].phoneNumber, table[k.value].timestamp) || k.value == i;
    assert k.value == i;
  }

  // ---------------------------------------------------------------------
  // Analytics
  // ---------------------------------------------------------------------

  /** The integer fields of `SearchAnalytics`. */
  datatype SearchAnalytics = SearchAnalytics(
    totalSearches: nat,
    newSearches: nat,
    contactedSearches: nat,
    completedSearches: nat,
    searchesWithLocation: nat,
    sedanSearches: nat,
    suvSearches: nat,
    vanSearches: nat,
    luxurySearches: nat)

  function HasSearchStatus(status: string): SearchRecord -> bool {
    (r: SearchRecord) => r.status == status
  }

  function QueryMentions(word: string): SearchRecord -> bool {
    (r: SearchRecord) => Contains(ToLower(r.searchQuery), word)
  }

  predicate WithLocation(r: SearchRecord) {
    r.locationAvailable
  }

  /** One record's contribution to each counter of `getSearchAnalytics`. */
  function TallyOne(a: SearchAnalytics, r: SearchRecord): (b: SearchAnalytics)
    ensures b.totalSearches == a.totalSearches + 1
    ensures b.newSearches == a.newSearches + (if HasSearchStatus("New")(r) then 1 else 0)
    ensures b.contactedSearches == a.contactedSearches + (if HasSearchStatus("Contacted")(r) then 1 else 0)
    ensures b.completedSearches == a.completedSearches + (if HasSearchStatus("Completed")(r) then 1 else 0)
    ensures b.newSearches + b.contactedSearches + b.completedSearches
            <= a.newSearches + a.contactedSearches + a.completedSearches + 1
    ensures b.searchesWithLocation == a.searchesWithLocation + (if WithLocation(r) then 1 else 0)
    ensures b.sedanSearches == a.sedanSearches + (if QueryMentions("sedan")(r) then 1 else 0)
    ensures b.suvSearches == a.suvSearches + (if QueryMentions("suv")(r) then 1 else 0)
    ensures b.vanSearches == a.vanSearches + (if QueryMentions("van")(r) then 1 else 0)
    ensures b.luxurySearches == a.luxurySearches + (if QueryMentions("luxury")(r) then 1 else 0)
  {
    var q := ToLower(r.searchQuery);
    assert "New" != "Contacted" && "New" != "Completed" && "Contacted" != "Completed" by {
      assert |"New"| != |"Contacted"| && |"New"| != |"Completed"| && "Contacted"[2] != "Completed"[2];
    }
    SearchAnalytics(
      a.totalSearches + 1,
      a.newSearches + (if r.status == "New" then 1 else 0),
      a.contactedSearches + (if r.status == "Contacted" then 1 else 0),
      a.completedSearches + (if r.status == "Completed" then 1 else 0),
      a.searchesWithLocation + (if r.locationAvailable then 1 else 0),
      a.sedanSearches + (if Contains(q, "sedan") then 1 else 0),
      a.suvSearches + (if Contains(q, "suv") then 1 else 0),
      a.vanSearches + (if Contains(q, "van") then 1 else 0),
      a.luxurySearches + (if Contains(q, "luxury") then 1 else 0))
  }

  /** The counting loops of `getSearchAnalytics` over a list of records. */
  function TallySearches(records: seq<SearchRecord>): (a: SearchAnalytics)
    ensures a.totalSearches == |records|
    ensures a.newSearches == Count(records, HasSearchStatus("New"))
    ensures a.contactedSearches == Count(records, HasSearchStatus("Contacted"))
    ensures a.completedSearches == Count(records, HasSearchStatus("Completed"))
    ensures a.newSearches + a.contactedSearches + a.completedSearches <= a.totalSearches
    ensures a.searchesWithLocation == Count(records, WithLocation)
    ensures a.sedanSearches == Count(records, QueryMentions("sedan"))
    ensures a.suvSearches == Count(records, QueryMentions("suv"))
    ensures a.vanSearches == Count(records, QueryMentions("van"))
    ensures a.luxurySearches == Count(records, QueryMentions("luxury"))
  {
    if |records| == 0 then SearchAnalytics(0, 0, 0, 0, 0, 0, 0, 0, 0)
    else TallyOne(TallySearches(records[..|records| - 1]), records[|records| - 1])
  }

  /**
   `getSearchAnalytics`: the counts over the listed records. Statuses other
   than the three named are not counted; a query may count in several buckets.
   */
  function GetSearchAnalytics(table: SearchTable): (a: SearchAnalytics)
    ensures a.totalSearches == |table|
    ensures a.newSearches + a.contactedSearches + a.completedSearches <= a.totalSearches
    ensures a.searchesWithLocation <= a.totalSearches
    ensures a.newSearches == Count(table, HasSearchStatus("New"))
    ensures a.contactedSearches == Count(table, HasSearchStatus("Contacted"))
    ensures a.completedSearches == Count(table, HasSearchStatus("Completed"))
    ensures a.searchesWithLocation == Count(table, WithLocation)
    ensures a.sedanSearches == Count(table, QueryMentions("sedan"))
    ensures a.suvSearches == Count(table, QueryMentions("suv"))
    ensures a.vanSearches == Count(table, QueryMentions("van"))
    ensures a.luxurySearches == Count(table, QueryMentions("luxury"))
  {
    var records := GetAllSearchRecords(table);
    CountPermutation(records, table, HasSearchStatus("New"));
    CountPermutation(records, table, HasSearchStatus("Contacted"));
    CountPermutation(records, table, HasSearchStatus("Completed"));
    CountPermutation(records, table, WithLocation);
    CountPermutation(records, table, QueryMentions("sedan"));
    CountPermutation(records, table, QueryMentions("suv"));
    CountPermutation(records, table, QueryMentions("van"));
    CountPermutation(records, table, QueryMentions("luxury"));
    TallySearches(records)
  }

  /** A query mentioning both words counts once as a van and once as a luxury search. */
  lemma {:induction false} OneQueryTwoBuckets(record: SearchRecord)
    requires Contains(ToLower(record.searchQuery), "van") && Contains(ToLower(record.searchQuery), "luxury")
    ensures GetSearchAnalytics([record]).vanSearches == 1
    ensures GetSearchAnalytics([record]).luxurySearches == 1
  {
    assert [record][..0] == [];
  }

  /** "luxury van" mentions both words. */
  lemma {:induction false} LuxuryVanMentionsBoth()
    ensures Contains(ToLower("luxury van"), "van") && Contains(ToLower("luxury van"), "luxury")
  {
    var q := ToLower("luxury van");
    assert q == "luxury van";
    assert IsPrefix("luxury", q);
    assert q[7..] == "van";
    assert IsPrefix("van", q[7..]);
    ContainsIffOccurs(q, "van");
  }

  /**
   `getMostPopularVehicleType`: "None" when no search names a type,
   otherwise the first of Sedan, SUV, Van, Luxury with the greatest count.
   */
  function MostPopularVehicleType(a: SearchAnalytics): (r: string)
    ensures r == "None" <==> a.sedanSearches == 0 && a.suvSearches == 0 && a.vanSearches == 0 && a.luxurySearches == 0
    ensures r in {"None", "Sedan", "SUV", "Van", "Luxury"}
    ensures r == "Sedan" ==> a.sedanSearches >= a.suvSearches && a.sedanSearches >= a.vanSearches && a.sedanSearches >= a.luxurySearches
    ensures r == "SUV" ==> a.suvSearches > a.sedanSearches && a.suvSearches >= a.vanSearches && a.suvSearches >= a.luxurySearches
    ensures r == "Van" ==> a.vanSearches > a.sedanSearches && a.vanSearches > a.suvSearches && a.vanSearches >= a.luxurySearches
    ensures r == "Luxury" ==> a.luxurySearches > a.sedanSearches && a.luxurySearches > a.suvSearches && a.luxurySearches > a.vanSearches
  {
    var maxCount := Max(Max(a.sedanSearches, a.suvSearches), Max(a.vanSearches, a.luxurySearches));
    if maxCount == 0 then "None"
    else if a.sedanSearches == maxCount then "Sedan"
    else if a.suvSearches == maxCount then "SUV"
    else if a.vanSearches == maxCount then "Van"
    else if a.luxurySearches == maxCount then "Luxury"
    else "Mixed"
  }

  function Max(x: int, y: int): (m: int)
    ensures m >= x && m >= y && (m == x || m == y)
  {
    if x >= y then x else y
  }
}
