/**
 * The booking decision and its consequences, as functions of the tables.
 * A request is judged in the order the system applies its checks: the
 * request schema (1 to 6 seats), seat validation, the show lookup, and
 * finally the overlap with the seats already booked for the show.
 */
module Reservation {
  import opened Common
  import opened Records
  import opened SeatRules
  import opened Catalog

  /** Every seat held by some booking of the show. */
  function BookedSeats(bookings: map<int, Booking>, showId: int): (r: set<Seat>)
    ensures forall s :: s in r <==>
              exists id :: id in bookings && bookings[id].showId == showId && s in bookings[id].seats
  {
    set id, s | id in bookings && bookings[id].showId == showId && s in bookings[id].seats :: s
  }

  /** None when a booking request is admitted, otherwise the failure it is answered with. */
  function Admit(t: Tables, showId: int, seats: seq<Seat>): Option<Failure>
  {
    if !SeatCountAccepted(seats) then Some(Unprocessable)
    else if CheckSeats(seats).Some? then CheckSeats(seats)
    else if showId !in t.shows then Some(NotFound(ShowEntity))
    else if BookedSeats(t.bookings, showId) * Requested(seats) != {} then Some(SeatsTaken)
    else None
  }

  /** The tables after a new booking row is stored. */
  function Insert(t: Tables, id: int, b: Booking): Tables
  {
    t.(bookings := t.bookings[id := b])
  }

  /** The tables after a booking row is removed. */
  function RemoveBooking(t: Tables, id: int): Tables
  {
    t.(bookings := map k | k in t.bookings && k != id :: t.bookings[k])
  }

  /**
   * A request is admitted exactly when it carries 1 to 6 distinct seats of
   * the grid, for an existing show, none of them held by a booking of that
   * show.
   */
  lemma AdmitExactly(t: Tables, showId: int, seats: seq<Seat>)
    ensures Admit(t, showId, seats) == None <==>
      && 1 <= |seats| <= 6
      && AllInGrid(seats) && Distinct(seats)
      && showId in t.shows
      && forall id :: id in t.bookings && t.bookings[id].showId == showId ==> SeatsDisjoint(seats, t.bookings[id].seats)
  {
    CheckSeatsAccepts(seats);
    if Admit(t, showId, seats) == None {
      forall id | id in t.bookings && t.bookings[id].showId == showId
        ensures SeatsDisjoint(seats, t.bookings[id].seats)
      {
        forall s | s in seats ensures s !in t.bookings[id].seats {
          var booked := BookedSeats(t.bookings, showId);
          assert s in Requested(seats) && s !in booked * Requested(seats);
          assert s !in booked;
        }
      }
    }
  }

  /**
   * A well-formed request for an existing show is refused with a conflict
   * exactly when one of its seats is already held by a booking of that show.
   */
  lemma ConflictExactly(t: Tables, showId: int, seats: seq<Seat>)
    requires SeatCountAccepted(seats) && AllInGrid(seats) && Distinct(seats)
    requires showId in t.shows
    ensures Admit(t, showId, seats) == Some(SeatsTaken) <==>
      exists id, k :: id in t.bookings && t.bookings[id].showId == showId && 0 <= k < |seats|
                      && seats[k] in t.bookings[id].seats
  {
    CheckSeatsAccepts(seats);
    if Admit(t, showId, seats) == Some(SeatsTaken) {
      var s :| s in BookedSeats(t.bookings, showId) * Requested(seats);
      var id :| id in t.bookings && t.bookings[id].showId == showId && s in t.bookings[id].seats;
      var k :| 0 <= k < |seats| && seats[k] == s;
    } else {
      AdmitExactly(t, showId, seats);
    }
  }

  /** Seat errors are reported before the show is looked up, so even for a missing show. */
  lemma SeatErrorsComeFirst(t: Tables, showId: int, seats: seq<Seat>)
    requires SeatCountAccepted(seats)
    requires !AllInGrid(seats) || !Distinct(seats)
    ensures Admit(t, showId, seats) in {Some(SeatOutOfRange), Some(DuplicateSeats)}
    ensures Distinct(seats) ==> Admit(t, showId, seats) == Some(SeatOutOfRange)
    ensures AllInGrid(seats) ==> Admit(t, showId, seats) == Some(DuplicateSeats)
  {
    CheckSeatsAccepts(seats);
    CheckSeatsFromKinds(seats, 0);
    if Distinct(seats) {
      OutOfRangeReported(seats);
    }
    if AllInGrid(seats) {
      DuplicateReported(seats);
    }
  }

  /** A well-formed request for a missing show is answered "Show not found". */
  lemma MissingShowNotFound(t: Tables, showId: int, seats: seq<Seat>)
    requires SeatCountAccepted(seats) && AllInGrid(seats) && Distinct(seats)
    requires showId !in t.shows
    ensures Admit(t, showId, seats) == Some(NotFound(ShowEntity))
  {
    CheckSeatsAccepts(seats);
  }

  /** Storing an admitted booking keeps every invariant, in particular per-show seat disjointness. */
  lemma InsertKeepsConsistent(t: Tables, id: int, userId: int, showId: int, seats: seq<Seat>, now: int)
    requires Consistent(t)
    requires Admit(t, showId, seats) == None
    requires userId in t.users && id !in t.bookings
    ensures Consistent(Insert(t, id, Booking(userId, showId, seats, now)))
  {
    AdmitExactly(t, showId, seats);
    var r := Insert(t, id, Booking(userId, showId, seats, now));
    forall a, b | a in r.bookings && b in r.bookings && a != b && r.bookings[a].showId == r.bookings[b].showId
      ensures SeatsDisjoint(r.bookings[a].seats, r.bookings[b].seats)
    {
      if a == id {
        assert SeatsDisjoint(seats, t.bookings[b].seats);
      } else if b == id {
        assert SeatsDisjoint(seats, t.bookings[a].seats);
      }
    }
  }

  /** Removing a booking keeps every invariant. */
  lemma RemoveKeepsConsistent(t: Tables, id: int)
    requires Consistent(t)
    ensures Consistent(RemoveBooking(t, id))
  {
    var r := RemoveBooking(t, id);
    assert forall a :: a in r.bookings ==> a in t.bookings && r.bookings[a] == t.bookings[a];
  }

  /** Once a booking is stored, any request sharing one of its seats for the same show conflicts. */
  lemma BookedSeatConflicts(t: Tables, id: int, b: Booking, seats: seq<Seat>, k: nat)
    requires SeatCountAccepted(seats) && AllInGrid(seats) && Distinct(seats)
    requires b.showId in t.shows
    requires k < |seats| && seats[k] in b.seats
    ensures Admit(Insert(t, id, b), b.showId, seats) == Some(SeatsTaken)
  {
    var r := Insert(t, id, b);
    assert id in r.bookings && r.bookings[id].showId == b.showId && seats[k] in r.bookings[id].seats;
    ConflictExactly(r, b.showId, seats);
  }

  /** Cancelling a booking frees its seats: the same request is admitted again afterwards. */
  lemma CancelFreesSeats(t: Tables, id: int)
    requires Consistent(t) && id in t.bookings
    ensures Admit(RemoveBooking(t, id), t.bookings[id].showId, t.bookings[id].seats) == None
  {
    var b := t.bookings[id];
    var r := RemoveBooking(t, id);
    assert WellFormedSeats(b.seats);
    forall other | other in r.bookings && r.bookings[other].showId == b.showId
      ensures SeatsDisjoint(b.seats, r.bookings[other].seats)
    {
      assert other != id && other in t.bookings;
    }
    AdmitExactly(r, b.showId, b.seats);
  }
}
