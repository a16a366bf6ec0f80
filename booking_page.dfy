/**
 * The booking page of the web client: the user picks a movie, then a show
 * of it in some cinema (step 1), then seats (step 2), and sends the
 * booking. The page filters the loaded shows by the selected movie and by
 * the cinema of their screen, and refuses to send an empty selection.
 */
module BookingPage {
  import opened Common
  import opened Records
  import opened Views
  import opened Decimal
  import opened SeatRules
  import opened Catalog
  import opened Reservation

  /** The screens of one cinema in a `/screens/` response, in response order. */
  function ScreensOfCinema(data: seq<ScreenView>, cinemaId: nat): (r: seq<ScreenView>)
    ensures forall s :: s in r <==> s in data && s.cinemaId == cinemaId
  {
    Filter(data, (s: ScreenView) => s.cinemaId == cinemaId)
  }

  /** `screens.find(s => s.id === screenId)`. */
  function FindScreen(screens: seq<ScreenView>, screenId: nat): Option<ScreenView>
  {
    Find(screens, (s: ScreenView) => s.id == screenId)
  }

  /** Whether a show is listed under a cinema: its screen (the first loaded one with its id) is in that cinema and its movie is the selected one. */
  predicate ShowListed(screens: seq<ScreenView>, selectedMovie: string, cinemaId: nat, show: ShowView)
  {
    var screen := FindScreen(screens, show.screenId);
    screen.Some? && screen.value.cinemaId == cinemaId && ParseDecimal(selectedMovie) == Some(show.movieId)
  }

  /** The shows offered under one cinema; none while no movie is selected (the empty string). */
  function ShowsForCinema(allShows: seq<ShowView>, screens: seq<ScreenView>, selectedMovie: string, cinemaId: nat): seq<ShowView>
  {
    if selectedMovie == "" then []
    else Filter(allShows, (show: ShowView) => ShowListed(screens, selectedMovie, cinemaId, show))
  }

  /**
   * Loaded screens with the same id belong to the same cinema. Screens are
   * appended per cinema, so one screen can be loaded twice, but a screen
   * never moves to another cinema.
   */
  predicate ScreenIdsAgree(screens: seq<ScreenView>)
  {
    forall i, j :: 0 <= i < |screens| && 0 <= j < |screens| && screens[i].id == screens[j].id
      ==> screens[i].cinemaId == screens[j].cinemaId
  }

  /**
   * No show is offered while no movie is selected; an offered show is one of
   * the loaded shows, of the selected movie, on a loaded screen of the
   * cinema. When loaded screens with one id agree on their cinema, that is
   * also sufficient.
   */
  lemma ShowsForCinemaExactly(allShows: seq<ShowView>, screens: seq<ScreenView>, selectedMovie: string, cinemaId: nat)
    ensures selectedMovie == "" ==> ShowsForCinema(allShows, screens, selectedMovie, cinemaId) == []
    ensures forall show :: show in ShowsForCinema(allShows, screens, selectedMovie, cinemaId) ==>
              && show in allShows
              && ParseDecimal(selectedMovie) == Some(show.movieId)
              && exists s :: s in screens && s.id == show.screenId && s.cinemaId == cinemaId
    ensures ScreenIdsAgree(screens) && selectedMovie != "" ==>
              forall show :: show in ShowsForCinema(allShows, screens, selectedMovie, cinemaId) <==>
                && show in allShows
                && ParseDecimal(selectedMovie) == Some(show.movieId)
                && exists s :: s in screens && s.id == show.screenId && s.cinemaId == cinemaId
  {
    forall show: ShowView {
      FindFirst(screens, (s: ScreenView) => s.id == show.screenId);
    }
    if ScreenIdsAgree(screens) && selectedMovie != "" {
      forall show | show in allShows && ParseDecimal(selectedMovie) == Some(show.movieId)
                    && exists s :: s in screens && s.id == show.screenId && s.cinemaId == cinemaId
        ensures ShowListed(screens, selectedMovie, cinemaId, show)
      {
        var s :| s in screens && s.id == show.screenId && s.cinemaId == cinemaId;
        var found := FindScreen(screens, show.screenId);
        var i :| 0 <= i < |screens| && screens[i] == found.value && screens[i].id == show.screenId;
        var j :| 0 <= j < |screens| && screens[j] == s;
        assert screens[i].cinemaId == screens[j].cinemaId;
      }
    }
  }

  /** With a movie chosen from the list (its id as the option value), exactly that movie's shows are offered. */
  lemma ShowsOfSelectedMovie(allShows: seq<ShowView>, screens: seq<ScreenView>, movieId: nat, cinemaId: nat)
    ensures forall show :: show in ShowsForCinema(allShows, screens, DecimalString(movieId), cinemaId) ==>
              show in allShows && show.movieId == movieId
    ensures forall show :: show in allShows && show.movieId == movieId
              && FindScreen(screens, show.screenId).Some?
              && FindScreen(screens, show.screenId).value.cinemaId == cinemaId
              ==> show in ShowsForCinema(allShows, screens, DecimalString(movieId), cinemaId)
  {
    ParseDecimalString(movieId);
  }

  /** The class of a step in the step indicator. */
  function StepStatus(stepNumber: int, step: int): (r: string)
    ensures r == "completed" <==> stepNumber < step
    ensures r == "active" <==> stepNumber == step
    ensures r == "" <==> stepNumber > step
  {
    if stepNumber < step then "completed"
    else if stepNumber == step then "active"
    else ""
  }

  /** How far along a status is: completed, active, then not reached. */
  function StatusRank(status: string): nat
  {
    if status == "completed" then 2 else if status == "active" then 1 else 0
  }

  /** Earlier steps are never behind later ones, and at most one step is active. */
  lemma StepStatusOrdered(a: int, b: int, step: int)
    requires a < b
    ensures StatusRank(StepStatus(a, step)) >= StatusRank(StepStatus(b, step))
    ensures !(StepStatus(a, step) == "active" && StepStatus(b, step) == "active")
  {
  }

  /** What the page posts to `/bookings/`. */
  datatype BookingRequest = BookingRequest(showId: Option<nat>, seats: seq<Seat>)

  const NoSeatsMessage := "Please select at least one seat"
  const BookingFailedMessage := "Booking failed. Please try again."

  /** The page's state. An unset movie is the empty string; an unset cinema or show is None. */
  class BookingFlow {
    var step: int
    var screens: seq<ScreenView>
    var allShows: seq<ShowView>
    var selectedMovie: string
    var selectedCinema: Option<nat>
    var selectedShow: Option<nat>
    var selectedSeats: seq<Seat>
    var error: string

    constructor ()
      ensures step == 1 && screens == [] && allShows == []
      ensures selectedMovie == "" && selectedCinema == None && selectedShow == None
      ensures selectedSeats == [] && error == ""
    {
      step := 1;
      screens := [];
      allShows := [];
      selectedMovie := "";
      selectedCinema := None;
      selectedShow := None;
      selectedSeats := [];
      error := "";
    }

    /** Appends the screens of one cinema from a `/screens/` response; a failed request changes nothing. */
    method FetchScreens(cinemaId: nat, response: Option<seq<ScreenView>>)
      modifies this
      ensures response.Some? ==> screens == old(screens) + ScreensOfCinema(response.value, cinemaId)
      ensures response.None? ==> screens == old(screens)
      ensures forall s :: s in screens ==> s in old(screens) || s.cinemaId == cinemaId
      ensures step == old(step) && allShows == old(allShows) && selectedMovie == old(selectedMovie)
      ensures selectedCinema == old(selectedCinema) && selectedShow == old(selectedShow)
      ensures selectedSeats == old(selectedSeats) && error == old(error)
    {
      if response.Some? {
        screens := screens + ScreensOfCinema(response.value, cinemaId);
      }
    }

    /** Selects a movie and forgets the cinema and show picked for the previous one. */
    method HandleMovieChange(movieId: string)
      modifies this
      ensures selectedMovie == movieId && selectedCinema == None && selectedShow == None
      ensures step == old(step) && screens == old(screens) && allShows == old(allShows)
      ensures selectedSeats == old(selectedSeats) && error == old(error)
    {
      selectedMovie := movieId;
      selectedCinema := None;
      selectedShow := None;
    }

    /** Picks a show of a cinema and moves on to seat selection. */
    method HandleShowSelect(cinemaId: nat, showId: nat)
      modifies this
      ensures selectedCinema == Some(cinemaId) && selectedShow == Some(showId) && step == 2
      ensures screens == old(screens) && allShows == old(allShows) && selectedMovie == old(selectedMovie)
      ensures selectedSeats == old(selectedSeats) && error == old(error)
    {
      selectedCinema := Some(cinemaId);
      selectedShow := Some(showId);
      step := 2;
    }

    /** Takes over the selection reported by the seat grid. */
    method HandleSeatsSelected(seats: seq<Seat>)
      modifies this
      ensures selectedSeats == seats
      ensures step == old(step) && screens == old(screens) && allShows == old(allShows)
      ensures selectedMovie == old(selectedMovie) && selectedCinema == old(selectedCinema)
      ensures selectedShow == old(selectedShow) && error == old(error)
    {
      selectedSeats := seats;
    }

    /**
     * The booking button: with no seat selected it only shows an error and
     * sends nothing; otherwise it clears the error and sends the selected
     * show and seats.
     */
    method HandleBooking() returns (request: Option<BookingRequest>)
      modifies this
      ensures old(selectedSeats) == [] ==> request == None && error == NoSeatsMessage
      ensures old(selectedSeats) != [] ==>
                request == Some(BookingRequest(selectedShow, selectedSeats)) && error == ""
      ensures request.Some? ==> |request.value.seats| >= 1
      ensures step == old(step) && screens == old(screens) && allShows == old(allShows)
      ensures selectedMovie == old(selectedMovie) && selectedCinema == old(selectedCinema)
      ensures selectedShow == old(selectedShow) && selectedSeats == old(selectedSeats)
    {
      if |selectedSeats| == 0 {
        error := NoSeatsMessage;
        return None;
      }
      error := "";
      request := Some(BookingRequest(selectedShow, selectedSeats));
    }

    /** A refused booking shows the server's detail, or a generic message when there is none. */
    method BookingFailed(detail: Option<string>)
      modifies this
      ensures error == ShownError(detail)
      ensures detail.Some? && detail.value != "" ==> error == detail.value
      ensures detail.None? || detail.value == "" ==> error == BookingFailedMessage
      ensures step == old(step) && screens == old(screens) && allShows == old(allShows)
      ensures selectedMovie == old(selectedMovie) && selectedCinema == old(selectedCinema)
      ensures selectedShow == old(selectedShow) && selectedSeats == old(selectedSeats)
    {
      if detail.Some? && detail.value != "" {
        error := detail.value;
      } else {
        error := BookingFailedMessage;
      }
    }

    /** After a confirmed booking the page returns to step 1 with nothing selected. */
    method ResetAfterSuccess()
      modifies this
      ensures step == 1 && selectedCinema == None && selectedMovie == "" && selectedShow == None
      ensures selectedSeats == []
      ensures screens == old(screens) && allShows == old(allShows) && error == old(error)
    {
      step := 1;
      selectedCinema := None;
      selectedMovie := "";
      selectedShow := None;
      selectedSeats := [];
    }
  }

  /** `detail || 'Booking failed. Please try again.'`: a missing or empty detail gives the generic message. */
  function ShownError(detail: Option<string>): string
  {
    if detail.Some? && detail.value != "" then detail.value else BookingFailedMessage
  }

  /**
   * A failure whose body carries a detail string shows that string, which is
   * never empty; a schema rejection (422) and a database error (500) carry
   * none and show the generic message.
   */
  lemma FailureDetailShown(f: Failure)
    ensures Detail(f).None? <==> Status(f) == 422 || Status(f) == 500
    ensures Detail(f).Some? ==> Detail(f).value != "" && ShownError(Detail(f)) == Detail(f).value
    ensures Detail(f).None? ==> ShownError(Detail(f)) == BookingFailedMessage
  {
    if f.NotFound? {
      assert |Detail(f).value| >= |" not found"|;
    }
  }

  /**
   * A booking the service refuses: a request of 1 to 6 seats, as the page
   * sends them, shows the service's own reason; any other count is refused
   * by the request schema and shows the generic message.
   */
  lemma RefusalShown(t: Tables, showId: int, seats: seq<Seat>)
    requires Admit(t, showId, seats).Some?
    ensures SeatCountAccepted(seats) ==>
              && Detail(Admit(t, showId, seats).value).Some?
              && ShownError(Detail(Admit(t, showId, seats).value)) == Detail(Admit(t, showId, seats).value).value
    ensures !SeatCountAccepted(seats) ==> ShownError(Detail(Admit(t, showId, seats).value)) == BookingFailedMessage
  {
    CheckSeatsFromKinds(seats, 0);
    FailureDetailShown(Admit(t, showId, seats).value);
  }
}
