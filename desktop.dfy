/**
 * The desktop front end's callbacks (gui_app.py), reduced to what they do to
 * the tables. `sel` is the selected bus id, None when no row is selected;
 * a dialog's answer is None when it was dismissed. The selected id always
 * names a listed bus, and the bounds a dialog enforces become requires.
 */
module Desktop {
  import opened Wrappers
  import opened Models
  import opened Reservations

  /** Python truthiness of an optional text: present and non-empty. */
  predicate Filled(s: Option<string>) {
    s.Some? && s.value != ""
  }

  /**
   * add_bus: nothing happens without a bus name; a dismissed seats or fare
   * dialog leaves that column to its default (40 seats, fare 0); a dismissed
   * route dialog fails the NOT NULL route column. The new bus's available
   * seats equal its total, which is at least 1.
   */
  method AddBus(l: Ledger, name: Option<string>, route: Option<string>, total: Option<int>, fare: Option<int>)
    returns (r: Result<int, Error>)
    requires l.Valid()
    requires total.Some? ==> total.value >= 1
    modifies l
    ensures l.Valid()
    ensures !Filled(name) ==> r == Err(Cancelled)
    ensures Filled(name) && route.None? ==> r == Err(MissingRequired)
    ensures r.Ok? <==> Filled(name) && route.Some?
    ensures r.Err? ==> unchanged(l)
    ensures r.Ok? ==>
      var seats := total.GetOr(DefaultTotalSeats);
      && r.value !in old(l.buses)
      && l.buses == old(l.buses)[r.value := Bus(name.value, route.value, seats, seats, fare.GetOr(DefaultFare), None, None)]
    ensures r.Ok? ==> r.value in l.buses && l.buses[r.value].totalSeats >= 1
                      && l.buses[r.value].availableSeats == l.buses[r.value].totalSeats
    ensures l.users == old(l.users) && l.bookings == old(l.bookings)
    ensures r.Ok? && old(l.AllBalanced()) ==> l.AllBalanced()
  {
    if !Filled(name) {
      return Err(Cancelled);
    }
    var row := BusRow(name, route, total, total, fare, None, None);
    if row.Err? {
      return Err(row.error);
    }
    var id := l.InsertBus(row.value);
    r := Ok(id);
  }

  /** delete_selected: with no selection or no confirmation nothing changes; otherwise exactly the selected bus goes. */
  method DeleteSelected(l: Ledger, sel: Option<int>, confirmed: bool) returns (r: Result<int, Error>)
    requires l.Valid()
    requires sel.Some? ==> sel.value in l.buses
    modifies l
    ensures l.Valid()
    ensures sel.None? ==> r == Err(NothingSelected)
    ensures sel.Some? && !confirmed ==> r == Err(NotConfirmed)
    ensures r.Ok? <==> sel.Some? && confirmed
    ensures r.Err? ==> unchanged(l)
    ensures r.Ok? ==> r.value == sel.value && l.buses == old(l.buses) - {sel.value}
                      && l.bookings == Detach(old(l.bookings), sel.value)
    ensures l.users == old(l.users)
    ensures old(l.AllBalanced()) ==> l.AllBalanced()
  {
    if sel.None? {
      return Err(NothingSelected);
    }
    if !confirmed {
      return Err(NotConfirmed);
    }
    l.RemoveBusDetaching(sel.value);
    r := Ok(sel.value);
  }

  /**
   * edit_selected: with no selection nothing changes. Name, route, total and
   * fare are overwritten only when the name answer is non-empty, but the
   * available seats are recomputed as `max(0, total - Σ booked)` either way.
   */
  method EditSelected(l: Ledger, sel: Option<int>, name: Option<string>, route: string, total: int, fare: int)
    returns (r: Result<int, Error>)
    requires l.Valid()
    requires sel.Some? ==> sel.value in l.buses
    modifies l
    ensures l.Valid()
    ensures r.Err? <==> sel.None?
    ensures r.Err? ==> r.error == NothingSelected && unchanged(l)
    ensures r.Ok? ==>
      var id := sel.value;
      var prev := old(l.buses[id]);
      var b := if Filled(name) then prev.(name := name.value, route := route, totalSeats := total, fare := fare) else prev;
      && r.value == id
      && l.buses == old(l.buses)[id := b.(availableSeats := RecomputedAvailable(b.totalSeats, BookedSeats(l.bookings, id)))]
    ensures r.Ok? && !Filled(name) ==>
      var b, b' := old(l.buses[sel.value]), l.buses[sel.value];
      b'.name == b.name && b'.route == b.route && b'.totalSeats == b.totalSeats && b'.fare == b.fare
    ensures r.Ok? ==> 0 <= l.buses[sel.value].availableSeats
    ensures l.users == old(l.users) && l.bookings == old(l.bookings)
    ensures r.Ok? && old(l.AllBalanced()) && l.buses[sel.value].totalSeats >= BookedSeats(l.bookings, sel.value) ==> l.AllBalanced()
  {
    if sel.None? {
      return Err(NothingSelected);
    }
    var bus := l.buses[sel.value];
    if Filled(name) {
      bus := bus.(name := name.value, route := route, totalSeats := total, fare := fare);
    }
    l.ReviseBus(sel.value, bus.name, bus.route, bus.totalSeats, bus.fare, bus.departTime);
    r := Ok(sel.value);
  }

  /**
   * do_book: with no selection or a dismissed seats dialog nothing changes.
   * The seats dialog accepts only `1..available`; a dismissed passenger-name
   * dialog fails the NOT NULL passenger_name column. A booking lowers the
   * bus's available seats by exactly `q` and appends one booking.
   */
  method DoBook(l: Ledger, sel: Option<int>, userId: int, q: Option<int>, name: Option<string>,
                phone: Option<string>, now: string) returns (r: Result<int, Error>)
    requires l.Valid()
    requires sel.Some? ==> sel.value in l.buses
    requires sel.Some? && q.Some? ==> 1 <= q.value <= l.buses[sel.value].availableSeats
    modifies l
    ensures l.Valid()
    ensures sel.None? ==> r == Err(NothingSelected)
    ensures sel.Some? && q.None? ==> r == Err(Cancelled)
    ensures sel.Some? && q.Some? && name.None? ==> r == Err(MissingRequired)
    ensures r.Ok? <==> sel.Some? && q.Some? && name.Some?
    ensures r.Err? ==> unchanged(l)
    ensures r.Ok? ==>
      var id, seats := sel.value, q.value;
      && l.buses == old(l.buses)[id := old(l.buses[id]).(availableSeats := old(l.buses[id].availableSeats) - seats)]
      && l.bookings == old(l.bookings) + [Booking(r.value, userId, Some(id), seats, Some(now), name.value, phone)]
    ensures r.Ok? ==> 0 <= l.buses[sel.value].availableSeats
    ensures l.users == old(l.users)
    ensures old(l.AllBalanced()) ==> l.AllBalanced()
  {
    if sel.None? {
      return Err(NothingSelected);
    }
    if q.None? {
      return Err(Cancelled);
    }
    if name.None? {
      return Err(MissingRequired);
    }
    var id := l.Reserve(sel.value, q.value, userId, name.value, phone, Some(now));
    r := Ok(id);
  }
}
