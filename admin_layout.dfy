/**
 * The seat-layout view of the admin page. It draws 80 seats labelled by a
 * letter and a number (A1 .. H10), marks a seat as booked when some entry
 * of the show's booking feed names that label, and heads the layout with
 * the details of the show chosen in a drop-down list.
 *
 * The label space (8 letters of 10 numbers) is the view's own and is not
 * related to the (row, col) seats of bookings; the feed is taken as an
 * abstract list of (seat label, user) entries.
 */
module AdminLayout {
  import opened Common
  import opened Views
  import opened Decimal

  const LayoutSize := 80
  const SeatsPerLetter := 10

  /** The label of the i-th seat of the layout: a letter from code 65 ('A') on, then the number i % 10 + 1. */
  function SeatLabel(i: nat): string
    requires i < LayoutSize
  {
    [(65 + i / SeatsPerLetter) as char] + DecimalString(i % SeatsPerLetter + 1)
  }

  /** The index a label denotes, if it is a letter A..H followed by a number 1..10. */
  function ParseSeatLabel(seatLabel: string): Option<nat>
  {
    if |seatLabel| >= 2 && 'A' <= seatLabel[0] <= 'H' then
      match ParseDecimal(seatLabel[1..])
      case Some(n) =>
        if 1 <= n <= SeatsPerLetter then Some((seatLabel[0] as int - 'A' as int) * SeatsPerLetter + n - 1) else None
      case None => None
    else None
  }

  /** Each label is a letter A..H followed by the decimal numeral of a number 1..10. */
  lemma SeatLabelShape(i: nat)
    requires i < LayoutSize
    ensures 'A' <= SeatLabel(i)[0] <= 'H'
    ensures SeatLabel(i)[0] as int - 'A' as int == i / 10
    ensures SeatLabel(i)[1..] == DecimalString(i % 10 + 1)
    ensures 1 <= i % 10 + 1 <= 10
  {
    assert SeatLabel(i)[1..] == DecimalString(i % 10 + 1);
  }

  /** A label reads back as the index it was drawn for. */
  lemma SeatLabelRoundTrip(i: nat)
    requires i < LayoutSize
    ensures ParseSeatLabel(SeatLabel(i)) == Some(i)
  {
    SeatLabelShape(i);
    ParseDecimalString(i % 10 + 1);
  }

  /** The 80 labels are pairwise distinct. */
  lemma SeatLabelsDistinct(i: nat, j: nat)
    requires i < LayoutSize && j < LayoutSize && i != j
    ensures SeatLabel(i) != SeatLabel(j)
  {
    SeatLabelRoundTrip(i);
    SeatLabelRoundTrip(j);
  }

  /** One entry of a show's booking feed: the seat label it names and its user. */
  datatype SeatEntry<U> = SeatEntry(seat: string, user: U)

  /** `bookings.find(b => b.seat === seat)`. */
  function GetSeatBooking<U>(bookings: seq<SeatEntry<U>>, seatLabel: string): Option<SeatEntry<U>>
  {
    Find(bookings, (b: SeatEntry<U>) => b.seat == seatLabel)
  }

  /**
   * A seat is drawn as booked exactly when some entry names its label, and
   * the entry shown for it is the first such entry of the feed.
   */
  lemma SeatBookedExactly<U>(bookings: seq<SeatEntry<U>>, i: nat)
    requires i < LayoutSize
    ensures GetSeatBooking(bookings, SeatLabel(i)).Some? <==>
              exists k :: 0 <= k < |bookings| && bookings[k].seat == SeatLabel(i)
    ensures GetSeatBooking(bookings, SeatLabel(i)).Some? ==>
              exists k :: 0 <= k < |bookings| && bookings[k] == GetSeatBooking(bookings, SeatLabel(i)).value
                          && bookings[k].seat == SeatLabel(i)
                          && forall j :: 0 <= j < k ==> bookings[j].seat != SeatLabel(i)
  {
    FindFirst(bookings, (b: SeatEntry<U>) => b.seat == SeatLabel(i));
  }

  /** An entry is drawn on at most one seat, since no two labels coincide. */
  lemma EntryOnOneSeat<U>(e: SeatEntry<U>, i: nat, j: nat)
    requires i < LayoutSize && j < LayoutSize
    requires e.seat == SeatLabel(i) && e.seat == SeatLabel(j)
    ensures i == j
  {
    if i != j {
      SeatLabelsDistinct(i, j);
    }
  }

  // ----- Show details -----

  /** A JavaScript value as the drop-down list and the show list carry ids. */
  datatype JsValue = JsNumber(n: int) | JsString(s: string)

  /** `===`: values of different types are never equal. */
  predicate StrictEquals(a: JsValue, b: JsValue)
  {
    match (a, b)
    case (JsNumber(x), JsNumber(y)) => x == y
    case (JsString(x), JsString(y)) => x == y
    case _ => false
  }

  datatype ShowDetails = ShowDetails(
    show: ShowView, movie: Option<MovieView>, screen: Option<ScreenView>, cinema: Option<CinemaView>)

  /** The movie, screen and cinema of a show, each None when it is not in the loaded lists. */
  function DetailsOf(show: ShowView, movies: seq<MovieView>, screens: seq<ScreenView>, cinemas: seq<CinemaView>): ShowDetails
  {
    var screen := Find(screens, (s: ScreenView) => s.id == show.screenId);
    ShowDetails(
      show,
      Find(movies, (m: MovieView) => m.id == show.movieId),
      screen,
      if screen.None? then None else Find(cinemas, (c: CinemaView) => c.id == screen.value.cinemaId))
  }

  /** `getShowDetails(showId)` as written: shows are looked up by `s.id === showId`. */
  function GetShowDetailsAsWritten(shows: seq<ShowView>, movies: seq<MovieView>, screens: seq<ScreenView>,
                                   cinemas: seq<CinemaView>, showId: JsValue): Option<ShowDetails>
  {
    match Find(shows, (s: ShowView) => StrictEquals(JsNumber(s.id), showId))
    case None => None
    case Some(show) => Some(DetailsOf(show, movies, screens, cinemas))
  }

  /**
   * The drop-down list stores the chosen option's value, a string, so the
   * lookup as written never finds the show and the details are never shown.
   */
  lemma SelectedShowNeverFound(shows: seq<ShowView>, movies: seq<MovieView>, screens: seq<ScreenView>,
                               cinemas: seq<CinemaView>, value: string)
    ensures GetShowDetailsAsWritten(shows, movies, screens, cinemas, JsString(value)) == None
  {
    FindFirst(shows, (s: ShowView) => StrictEquals(JsNumber(s.id), JsString(value)));
  }

  /** The lookup the page evidently intends: the show whose id renders as the selected value. */
  function GetShowDetails(shows: seq<ShowView>, movies: seq<MovieView>, screens: seq<ScreenView>,
                          cinemas: seq<CinemaView>, value: string): Option<ShowDetails>
  {
    match Find(shows, (s: ShowView) => DecimalString(s.id) == value)
    case None => None
    case Some(show) => Some(DetailsOf(show, movies, screens, cinemas))
  }

  /**
   * For the value of the option of show `id`, the corrected lookup answers
   * what the written one answers for the numeric id: the details of the
   * first show with that id, and None when no show has it.
   */
  lemma GetShowDetailsFinds(shows: seq<ShowView>, movies: seq<MovieView>, screens: seq<ScreenView>,
                            cinemas: seq<CinemaView>, id: nat)
    ensures GetShowDetails(shows, movies, screens, cinemas, DecimalString(id))
         == GetShowDetailsAsWritten(shows, movies, screens, cinemas, JsNumber(id))
    ensures GetShowDetails(shows, movies, screens, cinemas, DecimalString(id)).None? <==>
              forall k :: 0 <= k < |shows| ==> shows[k].id != id
    ensures GetShowDetails(shows, movies, screens, cinemas, DecimalString(id)).Some? ==>
              exists k :: 0 <= k < |shows| && shows[k].id == id
                          && GetShowDetails(shows, movies, screens, cinemas, DecimalString(id)).value
                             == DetailsOf(shows[k], movies, screens, cinemas)
                          && forall j :: 0 <= j < k ==> shows[j].id != id
  {
    var p := (s: ShowView) => DecimalString(s.id) == DecimalString(id);
    var q := (s: ShowView) => s.id == id;
    forall i | 0 <= i < |shows| ensures p(shows[i]) == q(shows[i]) {
      DecimalStringInjective(shows[i].id, id);
    }
    FindAgrees(shows, p, q);
    FindAgrees(shows, q, (s: ShowView) => StrictEquals(JsNumber(s.id), JsNumber(id)));
    FindFirst(shows, q);
  }

  /** A one-show list on which the written lookup misses the show the list offers and the corrected one finds it. */
  lemma ShowDetailsCounterexample()
    ensures var shows := [ShowView(1, 1, 1, 0)];
      && GetShowDetailsAsWritten(shows, [], [], [], JsString("1")) == None
      && GetShowDetails(shows, [], [], [], "1").Some?
  {
    var shows := [ShowView(1, 1, 1, 0)];
    SelectedShowNeverFound(shows, [], [], [], "1");
    assert DecimalString(1) == "1";
  }
}
