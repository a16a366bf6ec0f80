/**
 * Seat validation of the booking service: every requested seat must lie on
 * the 10 x 10 grid and no seat may be requested twice. Validation walks the
 * request in order and reports the first offending seat.
 */
module SeatRules {
  import opened Common
  import opened Records

  const TotalRows := 10
  const TotalCols := 10

  predicate InGrid(s: Seat)
  {
    0 <= s.row < TotalRows && 0 <= s.col < TotalCols
  }

  predicate AllInGrid(seats: seq<Seat>)
  {
    forall i :: 0 <= i < |seats| ==> InGrid(seats[i])
  }

  predicate Distinct(seats: seq<Seat>)
  {
    forall i, j :: 0 <= i < j < |seats| ==> seats[i] != seats[j]
  }

  /** The seats a request asks for, as a set. */
  function Requested(seats: seq<Seat>): (r: set<Seat>)
    ensures forall s :: s in r <==> s in seats
  {
    set s | s in seats
  }

  /** The verdict of checking seats[i..], given that seats[..i] passed. */
  function CheckSeatsFrom(seats: seq<Seat>, i: nat): Option<Failure>
    requires i <= |seats|
    decreases |seats| - i
  {
    if i == |seats| then None
    else if !InGrid(seats[i]) then Some(SeatOutOfRange)
    else if seats[i] in seats[..i] then Some(DuplicateSeats)
    else CheckSeatsFrom(seats, i + 1)
  }

  /** The verdict of seat validation on a whole request. */
  function CheckSeats(seats: seq<Seat>): Option<Failure>
  {
    CheckSeatsFrom(seats, 0)
  }

  /** A request passes from position i on exactly when each later seat is on the grid and new. */
  lemma {:induction false} CheckSeatsFromNone(seats: seq<Seat>, i: nat)
    requires i <= |seats|
    ensures CheckSeatsFrom(seats, i) == None <==>
              forall k :: i <= k < |seats| ==> InGrid(seats[k]) && seats[k] !in seats[..k]
    decreases |seats| - i
  {
    if i < |seats| {
      CheckSeatsFromNone(seats, i + 1);
    }
  }

  /** Validation accepts a request exactly when all its seats are on the grid and pairwise distinct. */
  lemma CheckSeatsAccepts(seats: seq<Seat>)
    ensures CheckSeats(seats) == None <==> AllInGrid(seats) && Distinct(seats)
  {
    CheckSeatsFromNone(seats, 0);
    if AllInGrid(seats) && Distinct(seats) {
      forall k | 0 <= k < |seats| ensures seats[k] !in seats[..k] {
        assert forall j :: 0 <= j < k ==> seats[..k][j] == seats[j];
      }
    }
    if CheckSeats(seats) == None {
      forall i, j | 0 <= i < j < |seats| ensures seats[i] != seats[j] {
        assert seats[..j][i] == seats[i];
      }
    }
  }

  /** Validation only ever fails with one of the two seat errors. */
  lemma {:induction false} CheckSeatsFromKinds(seats: seq<Seat>, i: nat)
    requires i <= |seats|
    ensures CheckSeatsFrom(seats, i) in {None, Some(SeatOutOfRange), Some(DuplicateSeats)}
    decreases |seats| - i
  {
    if i < |seats| && InGrid(seats[i]) && seats[i] !in seats[..i] {
      CheckSeatsFromKinds(seats, i + 1);
    }
  }

  /** With no repeated seat, any seat off the grid is reported as out of range. */
  lemma OutOfRangeReported(seats: seq<Seat>)
    requires Distinct(seats) && !AllInGrid(seats)
    ensures CheckSeats(seats) == Some(SeatOutOfRange)
  {
    CheckSeatsAccepts(seats);
    CheckSeatsFromKinds(seats, 0);
    if CheckSeats(seats) == Some(DuplicateSeats) {
      DuplicateMeansRepeat(seats, 0);
    }
  }

  /** With every seat on the grid, a repeated seat is reported as a duplicate. */
  lemma DuplicateReported(seats: seq<Seat>)
    requires AllInGrid(seats) && !Distinct(seats)
    ensures CheckSeats(seats) == Some(DuplicateSeats)
  {
    CheckSeatsAccepts(seats);
    CheckSeatsFromKinds(seats, 0);
    if CheckSeats(seats) == Some(SeatOutOfRange) {
      OutOfRangeMeansOffGrid(seats, 0);
    }
  }

  /** A duplicate verdict is backed by a seat requested twice. */
  lemma {:induction false} DuplicateMeansRepeat(seats: seq<Seat>, i: nat)
    requires i <= |seats| && CheckSeatsFrom(seats, i) == Some(DuplicateSeats)
    ensures !Distinct(seats)
    decreases |seats| - i
  {
    if InGrid(seats[i]) && seats[i] in seats[..i] {
      var j :| 0 <= j < i && seats[..i][j] == seats[i];
      assert seats[j] == seats[i];
    } else {
      DuplicateMeansRepeat(seats, i + 1);
    }
  }

  /** An out-of-range verdict is backed by a seat off the grid. */
  lemma {:induction false} OutOfRangeMeansOffGrid(seats: seq<Seat>, i: nat)
    requires i <= |seats| && CheckSeatsFrom(seats, i) == Some(SeatOutOfRange)
    ensures !AllInGrid(seats)
    decreases |seats| - i
  {
    if InGrid(seats[i]) {
      OutOfRangeMeansOffGrid(seats, i + 1);
    }
  }

  /**
   * The service's validation loop: it keeps the set of seats seen so far and
   * stops at the first seat that is off the grid or already seen.
   */
  method ValidateSeats(seats: seq<Seat>) returns (verdict: Option<Failure>)
    ensures verdict == CheckSeats(seats)
    ensures verdict == None <==> AllInGrid(seats) && Distinct(seats)
  {
    CheckSeatsAccepts(seats);
    var unique: set<Seat> := {};
    var i := 0;
    while i < |seats|
      invariant 0 <= i <= |seats|
      invariant unique == Requested(seats[..i])
      invariant CheckSeats(seats) == CheckSeatsFrom(seats, i)
    {
      var s := seats[i];
      if !InGrid(s) {
        return Some(SeatOutOfRange);
      }
      if s in unique {
        return Some(DuplicateSeats);
      }
      unique := unique + {s};
      i := i + 1;
      assert seats[..i] == seats[..i - 1] + [s];
    }
    verdict := None;
  }
}
