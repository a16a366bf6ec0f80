/**
 * The seat-selection component of the web client. It shows a 10 x 10 grid
 * for one show, marks as occupied the seats held by the signed-in user's own
 * bookings of that show, and keeps an ordered selection of at most six
 * seats that a click toggles.
 */
module SeatGrid {
  import opened Common
  import opened Records
  import opened SeatRules
  import opened Views

  /** The most seats the component lets the user select. */
  const MaxSelected := 6

  /** `seats.some(seat => seat.row === row && seat.col === col)`. */
  function HasSeat(seats: seq<Seat>, row: int, col: int): (r: bool)
    ensures r <==> Seat(row, col) in seats
  {
    Any(seats, (s: Seat) => s.row == row && s.col == col)
  }

  /** The seats of the given bookings that belong to the show, booking by booking. */
  function BookedFrom(myBookings: seq<BookingOut>, showId: int): (r: seq<Seat>)
    ensures forall s :: s in r <==> exists b :: b in myBookings && b.showId == showId && s in b.seats
  {
    if myBookings == [] then []
    else (if myBookings[0].showId == showId then myBookings[0].seats else [])
         + BookedFrom(myBookings[1..], showId)
  }

  /** The selection without the seat at (row, col). */
  function RemoveSeat(selected: seq<Seat>, row: int, col: int): seq<Seat>
  {
    Filter(selected, (s: Seat) => !(s.row == row && s.col == col))
  }

  /**
   * The selection after a click on (row, col): an occupied seat is ignored,
   * a selected seat is deselected, a seventh seat is refused, and any other
   * seat is appended.
   */
  function Toggle(booked: seq<Seat>, selected: seq<Seat>, row: int, col: int): seq<Seat>
  {
    if HasSeat(booked, row, col) then selected
    else if HasSeat(selected, row, col) then RemoveSeat(selected, row, col)
    else if |selected| >= MaxSelected then selected
    else selected + [Seat(row, col)]
  }

  /** What the component keeps true of its selection: at most six distinct free seats. */
  predicate SelectionOk(booked: seq<Seat>, selected: seq<Seat>)
  {
    && |selected| <= MaxSelected
    && Distinct(selected)
    && forall s :: s in selected ==> s !in booked
  }

  /** Clicking an occupied seat leaves the selection unchanged. */
  lemma ToggleBooked(booked: seq<Seat>, selected: seq<Seat>, row: int, col: int)
    requires Seat(row, col) in booked
    ensures Toggle(booked, selected, row, col) == selected
  {
  }

  /**
   * Clicking a selected free seat removes exactly that seat; in a selection
   * without repeats it is the seat's one position that goes, and the others
   * keep their order.
   */
  lemma ToggleDeselects(booked: seq<Seat>, selected: seq<Seat>, row: int, col: int)
    requires Seat(row, col) !in booked && Seat(row, col) in selected
    ensures forall s :: s in Toggle(booked, selected, row, col) <==> s in selected && s != Seat(row, col)
    ensures Distinct(selected) ==>
              exists k :: 0 <= k < |selected| && selected[k] == Seat(row, col)
                          && Toggle(booked, selected, row, col) == selected[..k] + selected[k + 1..]
  {
    if Distinct(selected) {
      var k :| 0 <= k < |selected| && selected[k] == Seat(row, col);
      FilterDropsOne(selected, (s: Seat) => !(s.row == row && s.col == col), k);
    }
  }

  /** Clicking a seventh free seat leaves the selection unchanged. */
  lemma ToggleRefused(booked: seq<Seat>, selected: seq<Seat>, row: int, col: int)
    requires Seat(row, col) !in booked && Seat(row, col) !in selected
    requires |selected| >= MaxSelected
    ensures Toggle(booked, selected, row, col) == selected
  {
  }

  /** Clicking any other free seat appends it at the end. */
  lemma ToggleAppends(booked: seq<Seat>, selected: seq<Seat>, row: int, col: int)
    requires Seat(row, col) !in booked && Seat(row, col) !in selected
    requires |selected| < MaxSelected
    ensures Toggle(booked, selected, row, col) == selected + [Seat(row, col)]
  {
  }

  /** Cutting one position out of a selection keeps it repeat-free, free of occupied seats and on the grid. */
  lemma SpliceKeepsSelectionOk(booked: seq<Seat>, selected: seq<Seat>, k: nat)
    requires SelectionOk(booked, selected) && k < |selected|
    ensures SelectionOk(booked, selected[..k] + selected[k + 1..])
    ensures AllInGrid(selected) ==> AllInGrid(selected[..k] + selected[k + 1..])
  {
    var r := selected[..k] + selected[k + 1..];
    assert forall i :: 0 <= i < |r| ==> r[i] == selected[if i < k then i else i + 1];
  }

  /** Appending a free seat not yet selected to fewer than six keeps the selection ok. */
  lemma AppendKeepsSelectionOk(booked: seq<Seat>, selected: seq<Seat>, seat: Seat)
    requires SelectionOk(booked, selected) && |selected| < MaxSelected
    requires seat !in booked && seat !in selected
    ensures SelectionOk(booked, selected + [seat])
  {
    var r := selected + [seat];
    forall i, j | 0 <= i < j < |r| ensures r[i] != r[j] {
      if j == |selected| {
        assert r[i] == selected[i];
      }
    }
  }

  /**
   * Against a fixed set of occupied seats, a click keeps the selection at
   * most six distinct free seats, and clicks on the grid keep it on the grid.
   */
  lemma ToggleKeepsSelectionOk(booked: seq<Seat>, selected: seq<Seat>, row: int, col: int)
    requires SelectionOk(booked, selected)
    ensures SelectionOk(booked, Toggle(booked, selected, row, col))
    ensures AllInGrid(selected) && InGrid(Seat(row, col)) ==> AllInGrid(Toggle(booked, selected, row, col))
  {
    var seat := Seat(row, col);
    if seat !in booked && seat in selected {
      ToggleDeselects(booked, selected, row, col);
      var k :| 0 <= k < |selected| && selected[k] == seat
               && Toggle(booked, selected, row, col) == selected[..k] + selected[k + 1..];
      SpliceKeepsSelectionOk(booked, selected, k);
    } else if seat !in booked && |selected| < MaxSelected {
      AppendKeepsSelectionOk(booked, selected, seat);
    }
  }

  /**
   * A non-empty selection the component allows, of grid seats, passes the
   * booking request's seat count and the service's seat validation.
   */
  lemma SelectionPassesValidation(booked: seq<Seat>, selected: seq<Seat>)
    requires SelectionOk(booked, selected) && AllInGrid(selected) && selected != []
    ensures SeatCountAccepted(selected) && CheckSeats(selected) == None
  {
    CheckSeatsAccepts(selected);
  }

  /** The component's state for one show. */
  class SeatGridState {
    const showId: int
    /** Occupied seats: those of the user's own bookings of the show. */
    var seats: seq<Seat>
    var selectedSeats: seq<Seat>

    constructor (showId: int)
      ensures this.showId == showId && seats == [] && selectedSeats == []
    {
      this.showId := showId;
      seats := [];
      selectedSeats := [];
    }

    /**
     * Replaces the occupied seats with those of the user's bookings of this
     * show; a failed request (None) leaves them as they were.
     */
    method FetchBookedSeats(response: Option<seq<BookingOut>>)
      modifies this
      ensures response.Some? ==> seats == BookedFrom(response.value, showId)
      ensures response.None? ==> seats == old(seats)
      ensures selectedSeats == old(selectedSeats)
    {
      if response.Some? {
        seats := BookedFrom(response.value, showId);
      }
    }

    /** Handles a click on (row, col); `refused` is the "Maximum 6 seats" alert. */
    method HandleSeatClick(row: int, col: int) returns (refused: bool)
      modifies this
      ensures seats == old(seats)
      ensures selectedSeats == Toggle(seats, old(selectedSeats), row, col)
      ensures refused <==> Seat(row, col) !in seats && Seat(row, col) !in old(selectedSeats)
                           && |old(selectedSeats)| >= MaxSelected
      ensures SelectionOk(seats, old(selectedSeats)) ==> SelectionOk(seats, selectedSeats)
    {
      if SelectionOk(seats, selectedSeats) {
        ToggleKeepsSelectionOk(seats, selectedSeats, row, col);
      }
      refused := false;
      if HasSeat(seats, row, col) {
        return;
      }
      var seat := Seat(row, col);
      if HasSeat(selectedSeats, row, col) {
        selectedSeats := RemoveSeat(selectedSeats, row, col);
      } else {
        if |selectedSeats| >= MaxSelected {
          refused := true;
          return;
        }
        selectedSeats := selectedSeats + [seat];
      }
    }
  }
}
