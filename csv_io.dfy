/**
 * The CSV helpers (utils.py): bulk bus import and booking export. Import rows
 * arrive already split into column name -> text maps, and export rows are
 * lists of cell texts; quoting and tokenising belong to the csv module.
 */
module CsvIo {
  import opened Wrappers
  import opened Models
  import opened Numerals
  import opened Reservations

  /** `row.get(key, default)` on a parsed row. */
  function Column(row: map<string, string>, key: string, default: string): string {
    if key in row then row[key] else default
  }

  /**
   * The bus one import row becomes. A total that is absent or does not parse
   * falls back to 40, and the available seats equal the total; a fare that
   * does not parse fails the row, an absent one is 0; an absent name is
   * "Unnamed" and absent route, departure and extra are empty.
   */
  function ImportedBus(row: map<string, string>): (r: Result<Bus, Error>)
    ensures r.Ok? <==> "fare" !in row || ParseInt(row["fare"]).Some?
    ensures r.Err? ==> r.error == BadInteger
    ensures r.Ok? ==> r.value.availableSeats == r.value.totalSeats
    ensures r.Ok? && "total_seats" in row && ParseInt(row["total_seats"]).Some? ==> r.value.totalSeats == ParseInt(row["total_seats"]).value
    ensures r.Ok? && ("total_seats" !in row || ParseInt(row["total_seats"]).None?) ==> r.value.totalSeats == DefaultTotalSeats
    ensures r.Ok? ==> r.value.fare == (if "fare" in row then ParseInt(row["fare"]).value else 0)
    ensures r.Ok? ==> r.value.name == (if "name" in row then row["name"] else "Unnamed")
    ensures r.Ok? ==> r.value.route == (if "route" in row then row["route"] else "")
    ensures r.Ok? ==> r.value.departTime == Some(if "depart_time" in row then row["depart_time"] else "")
    ensures r.Ok? ==> r.value.extra == Some(if "extra" in row then row["extra"] else "")
  {
    var total :=
      if "total_seats" in row then ParseInt(row["total_seats"]).GetOr(DefaultTotalSeats) else DefaultTotalSeats;
    var fare := if "fare" in row then ParseInt(row["fare"]) else Some(0);
    if fare.None? then Err(BadInteger)
    else Ok(Bus(Column(row, "name", "Unnamed"), Column(row, "route", ""), total, total, fare.value,
                Some(Column(row, "depart_time", "")), Some(Column(row, "extra", ""))))
  }

  /** Row `k` of `rows` is stored as the bus with id `start + k`. */
  ghost predicate StoredInOrder(buses: map<int, Bus>, start: int, rows: seq<map<string, string>>) {
    forall k :: 0 <= k < |rows| ==>
      start + k in buses && ImportedBus(rows[k]).Ok? && buses[start + k] == ImportedBus(rows[k]).value
  }

  /** Every row that imports at all imports with a non-negative total. */
  ghost predicate NonNegativeTotals(rows: seq<map<string, string>>) {
    forall k :: 0 <= k < |rows| ==> ImportedBus(rows[k]).Ok? ==> ImportedBus(rows[k]).value.totalSeats >= 0
  }

  /** `pending` holds the bus of every row, in row order. */
  ghost predicate PendingFor(rows: seq<map<string, string>>, pending: seq<Bus>) {
    && |pending| == |rows|
    && forall k :: 0 <= k < |rows| ==> ImportedBus(rows[k]).Ok? && pending[k] == ImportedBus(rows[k]).value
  }

  lemma PendingBalanced(rows: seq<map<string, string>>, pending: seq<Bus>)
    requires PendingFor(rows, pending)
    ensures NonNegativeTotals(rows) ==> forall k :: 0 <= k < |pending| ==> Balanced(pending[k], 0)
  {
  }

  /** One more row whose bus imports extends the pending buses by that bus. */
  lemma PendingForAppend(rows: seq<map<string, string>>, i: int, pending: seq<Bus>)
    requires 0 <= i < |rows| && PendingFor(rows[..i], pending) && ImportedBus(rows[i]).Ok?
    ensures PendingFor(rows[..i + 1], pending + [ImportedBus(rows[i]).value])
  {
    assert rows[..i + 1][..i] == rows[..i];
  }

  /**
   * Committing the pending buses of `rows` under ids from `start` on, above
   * every existing key, adds exactly one bus per row and keeps the old ones.
   */
  lemma ImportStored(m: map<int, Bus>, start: int, rows: seq<map<string, string>>, pending: seq<Bus>)
    requires forall id :: id in m ==> id < start
    requires PendingFor(rows, pending)
    ensures |WithBuses(m, start, pending)| == |m| + |rows|
    ensures StoredInOrder(WithBuses(m, start, pending), start, rows)
    ensures forall id :: id in m ==> id in WithBuses(m, start, pending) && WithBuses(m, start, pending)[id] == m[id]
  {
    WithBusesContents(m, start, pending);
  }

  /**
   * The loop of import_buses_csv: every row becomes one pending bus, in row
   * order; the first row whose fare does not parse stops it with nothing.
   */
  method PendingBuses(rows: seq<map<string, string>>) returns (r: Option<seq<Bus>>)
    ensures r.Some? <==> forall k :: 0 <= k < |rows| ==> ImportedBus(rows[k]).Ok?
    ensures r.Some? ==> PendingFor(rows, r.value)
  {
    var pending: seq<Bus> := [];
    var i := 0;
    while i < |rows|
      invariant 0 <= i <= |rows|
      invariant PendingFor(rows[..i], pending)
    {
      var b := ImportedBus(rows[i]);
      if b.Err? {
        return None;
      }
      PendingForAppend(rows, i, pending);
      pending := pending + [b.value];
      i := i + 1;
    }
    assert rows[..|rows|] == rows;
    r := Some(pending);
  }

  /**
   * import_buses_csv: a row whose fare does not parse raises before the single
   * commit, so nothing of the import is stored. Otherwise exactly one bus per
   * row is added, under consecutive fresh ids, and the count returned is the
   * number of rows.
   */
  method ImportBuses(l: Ledger, rows: seq<map<string, string>>) returns (r: Result<int, Error>)
    requires l.Valid()
    modifies l
    ensures l.Valid()
    ensures r.Ok? <==> forall k :: 0 <= k < |rows| ==> ImportedBus(rows[k]).Ok?
    ensures r.Err? ==> r.error == BadInteger && unchanged(l)
    ensures r.Ok? ==> r.value == |rows| && |l.buses| == |old(l.buses)| + |rows|
    ensures r.Ok? ==> StoredInOrder(l.buses, old(l.nextBusId), rows)
    ensures r.Ok? ==> forall id :: id in old(l.buses) ==> id in l.buses && l.buses[id] == old(l.buses)[id]
    ensures l.users == old(l.users) && l.bookings == old(l.bookings)
    ensures r.Ok? && old(l.AllBalanced()) && NonNegativeTotals(rows) ==> l.AllBalanced()
  {
    var pending := PendingBuses(rows);
    if pending.None? {
      return Err(BadInteger);
    }
    PendingBalanced(rows, pending.value);
    l.InsertBuses(pending.value);
    ImportStored(old(l.buses), old(l.nextBusId), rows, pending.value);
    r := Ok(|pending.value|);
  }

  const ExportHeader: seq<string> := ["id", "user", "bus", "seats", "passenger_name", "passenger_phone", "booked_at"]

  /**
   * The CSV row of one booking: its id, its user's name or "" when the user
   * row is gone, its bus's name or "" when the bus is gone, its seats, the
   * passenger, and "" for a missing phone or timestamp.
   */
  function ExportRow(b: Booking, users: map<int, User>, buses: map<int, Bus>): seq<string> {
    [ ShowInt(b.id),
      if b.userId in users then users[b.userId].username else "",
      if b.busId.Some? && b.busId.value in buses then buses[b.busId.value].name else "",
      ShowInt(b.seats),
      b.passengerName,
      b.passengerPhone.GetOr(""),
      b.bookedAt.GetOr("") ]
  }

  /** export_bookings_csv: the header row, then exactly one row per booking in table order. */
  method ExportBookings(l: Ledger) returns (rows: seq<seq<string>>)
    ensures |rows| == |l.bookings| + 1
    ensures rows[0] == ExportHeader
    ensures forall i :: 0 <= i < |l.bookings| ==> rows[i + 1] == ExportRow(l.bookings[i], l.users, l.buses)
  {
    rows := [ExportHeader];
    for i := 0 to |l.bookings|
      invariant |rows| == i + 1 && rows[0] == ExportHeader
      invariant forall k :: 0 <= k < i ==> rows[k + 1] == ExportRow(l.bookings[k], l.users, l.buses)
    {
      rows := rows + [ExportRow(l.bookings[i], l.users, l.buses)];
    }
  }

  /**
   * Reading an exported row back gives the booking's id, seats and passenger
   * exactly, and the user and bus names (empty when the row is gone).
   */
  lemma ExportRowReadsBack(b: Booking, users: map<int, User>, buses: map<int, Bus>)
    ensures var row := ExportRow(b, users, buses);
      && |row| == |ExportHeader|
      && ParseInt(row[0]) == Some(b.id)
      && ParseInt(row[3]) == Some(b.seats)
      && row[4] == b.passengerName
      && row[1] == (if b.userId in users then users[b.userId].username else "")
      && row[2] == (if b.busId.Some? && b.busId.value in buses then buses[b.busId.value].name else "")
      && row[5] == (if b.passengerPhone.Some? then b.passengerPhone.value else "")
  {
    ParseShowRoundTrip(b.id);
    ParseShowRoundTrip(b.seats);
  }
}
