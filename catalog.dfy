/**
 * The catalog store as a value: one table per entity, keyed by id. The
 * ownership chain Cinema -> Screen -> Show -> Booking, and Movie -> Show,
 * is declared with delete-orphan cascades, so deleting a row deletes every
 * row that transitively belongs to it. The database also enforces foreign
 * keys, two unique constraints and its column types; `Consistent` collects
 * what it guarantees of every committed state, together with the booking
 * service's seat rules.
 */
module Catalog {
  import opened Records
  import opened SeatRules

  datatype Tables = Tables(
    users: map<int, User>,
    cinemas: map<int, Cinema>,
    screens: map<int, Screen>,
    movies: map<int, Movie>,
    shows: map<int, Show>,
    bookings: map<int, Booking>)

  function EmptyTables(): Tables
  {
    Tables(map[], map[], map[], map[], map[], map[])
  }

  /** Every screen, show and booking points at rows that exist. */
  predicate ReferencesResolve(t: Tables)
  {
    && (forall id :: id in t.screens ==> t.screens[id].cinemaId in t.cinemas)
    && (forall id :: id in t.shows ==> t.shows[id].screenId in t.screens && t.shows[id].movieId in t.movies)
    && (forall id :: id in t.bookings ==> t.bookings[id].showId in t.shows && t.bookings[id].userId in t.users)
  }

  /** No two accounts share an email. */
  predicate UniqueEmails(users: map<int, User>)
  {
    forall a, b :: a in users && b in users && a != b ==> users[a].email != users[b].email
  }

  /** No two screens of one cinema share a name. */
  predicate UniqueScreenNames(screens: map<int, Screen>)
  {
    forall a, b :: a in screens && b in screens && a != b && screens[a].cinemaId == screens[b].cinemaId
      ==> screens[a].name != screens[b].name
  }

  /** No two shows on one screen share a start time. */
  predicate UniqueShowTimes(shows: map<int, Show>)
  {
    forall a, b :: a in shows && b in shows && a != b && shows[a].screenId == shows[b].screenId
      ==> shows[a].startTime != shows[b].startTime
  }

  predicate SeatsDisjoint(xs: seq<Seat>, ys: seq<Seat>)
  {
    forall s :: s in xs ==> s !in ys
  }

  /** A booking holds 1 to 6 distinct seats of the grid. */
  predicate WellFormedSeats(seats: seq<Seat>)
  {
    SeatCountAccepted(seats) && AllInGrid(seats) && Distinct(seats)
  }

  /** No seat of a show is held by two bookings. */
  predicate NoDoubleBooking(bookings: map<int, Booking>)
  {
    forall a, b :: a in bookings && b in bookings && a != b && bookings[a].showId == bookings[b].showId
      ==> SeatsDisjoint(bookings[a].seats, bookings[b].seats)
  }

  predicate BookingsWellFormed(bookings: map<int, Booking>)
  {
    forall id :: id in bookings ==> WellFormedSeats(bookings[id].seats)
  }

  /** Every stored user, cinema, screen and movie fits the columns of its table. */
  predicate RowsFit(t: Tables)
  {
    && (forall id :: id in t.users ==> UserFits(t.users[id]))
    && (forall id :: id in t.cinemas ==> CinemaFits(t.cinemas[id]))
    && (forall id :: id in t.screens ==> ScreenFits(t.screens[id]))
    && (forall id :: id in t.movies ==> MovieFits(t.movies[id]))
  }

  predicate Consistent(t: Tables)
  {
    && RowsFit(t)
    && ReferencesResolve(t)
    && UniqueEmails(t.users)
    && UniqueScreenNames(t.screens)
    && UniqueShowTimes(t.shows)
    && BookingsWellFormed(t.bookings)
    && NoDoubleBooking(t.bookings)
  }

  // ----- Cascading deletes -----

  /** The screens owned by a cinema. */
  function ScreensOf(screens: map<int, Screen>, cinemaId: int): set<int>
  {
    set id | id in screens && screens[id].cinemaId == cinemaId
  }

  /** The shows running on any of the given screens. */
  function ShowsOn(shows: map<int, Show>, screenIds: set<int>): set<int>
  {
    set id | id in shows && shows[id].screenId in screenIds
  }

  /** The shows of a movie. */
  function ShowsOfMovie(shows: map<int, Show>, movieId: int): set<int>
  {
    set id | id in shows && shows[id].movieId == movieId
  }

  /** Removes the given shows and, by cascade, their bookings. */
  function DropShows(t: Tables, gone: set<int>): Tables
  {
    t.(bookings := map id | id in t.bookings && t.bookings[id].showId !in gone :: t.bookings[id],
       shows := map id | id in t.shows && id !in gone :: t.shows[id])
  }

  /** Removes the given screens and, by cascade, their shows and those shows' bookings. */
  function DropScreens(t: Tables, gone: set<int>): Tables
  {
    DropShows(t.(screens := map id | id in t.screens && id !in gone :: t.screens[id]), ShowsOn(t.shows, gone))
  }

  function DeleteCinema(t: Tables, id: int): Tables
  {
    DropScreens(t.(cinemas := map c | c in t.cinemas && c != id :: t.cinemas[c]), ScreensOf(t.screens, id))
  }

  function DeleteScreen(t: Tables, id: int): Tables
  {
    DropScreens(t, {id})
  }

  function DeleteShow(t: Tables, id: int): Tables
  {
    DropShows(t, {id})
  }

  function DeleteMovie(t: Tables, id: int): Tables
  {
    DropShows(t.(movies := map m | m in t.movies && m != id :: t.movies[m]), ShowsOfMovie(t.shows, id))
  }

  /** References resolve, except that screens in `screensGone` and shows in `showsGone` may dangle. */
  predicate ResolvesExcept(t: Tables, screensGone: set<int>, showsGone: set<int>)
  {
    && (forall id :: id in t.screens && id !in screensGone ==> t.screens[id].cinemaId in t.cinemas)
    && (forall id :: id in t.shows && id !in showsGone ==> t.shows[id].screenId in t.screens && t.shows[id].movieId in t.movies)
    && (forall id :: id in t.bookings ==> t.bookings[id].showId in t.shows && t.bookings[id].userId in t.users)
  }

  /** The constraints of Consistent that do not involve references. */
  predicate RowConstraints(t: Tables)
  {
    RowsFit(t) && UniqueEmails(t.users) && UniqueScreenNames(t.screens) && UniqueShowTimes(t.shows)
    && BookingsWellFormed(t.bookings) && NoDoubleBooking(t.bookings)
  }

  /** Removing shows together with their bookings leaves no booking without its show. */
  lemma DropShowsKeepsConsistent(t: Tables, gone: set<int>)
    requires ResolvesExcept(t, {}, gone) && RowConstraints(t)
    ensures Consistent(DropShows(t, gone))
  {
    var r := DropShows(t, gone);
    assert forall a :: a in r.bookings ==> a in t.bookings && r.bookings[a] == t.bookings[a];
    assert forall a :: a in r.shows ==> a in t.shows && r.shows[a] == t.shows[a] && a !in gone;
  }

  /** Removing screens together with their shows and bookings leaves no dangling reference. */
  lemma DropScreensKeepsConsistent(t: Tables, gone: set<int>)
    requires ResolvesExcept(t, gone, {}) && RowConstraints(t)
    ensures Consistent(DropScreens(t, gone))
  {
    var mid := t.(screens := map id | id in t.screens && id !in gone :: t.screens[id]);
    assert forall a :: a in mid.screens ==> a in t.screens && mid.screens[a] == t.screens[a] && a !in gone;
    assert ResolvesExcept(mid, {}, ShowsOn(t.shows, gone));
    DropShowsKeepsConsistent(mid, ShowsOn(t.shows, gone));
  }

  /**
   * Deleting a cinema removes exactly its screens, the shows on them and the
   * bookings of those shows; every other row stays as it was, and the store
   * stays consistent.
   */
  lemma DeleteCinemaCascades(t: Tables, id: int)
    requires Consistent(t)
    ensures var r := DeleteCinema(t, id);
      && Consistent(r)
      && r.cinemas.Keys == t.cinemas.Keys - {id}
      && (forall s :: s in r.screens <==> s in t.screens && t.screens[s].cinemaId != id)
      && (forall x :: x in r.shows <==> x in t.shows && t.screens[t.shows[x].screenId].cinemaId != id)
      && (forall b :: b in r.bookings <==>
            b in t.bookings && t.screens[t.shows[t.bookings[b].showId].screenId].cinemaId != id)
      && (forall c :: c in r.cinemas ==> r.cinemas[c] == t.cinemas[c])
      && (forall s :: s in r.screens ==> r.screens[s] == t.screens[s])
      && (forall x :: x in r.shows ==> r.shows[x] == t.shows[x])
      && (forall b :: b in r.bookings ==> r.bookings[b] == t.bookings[b])
      && r.movies == t.movies && r.users == t.users
  {
    var mid := t.(cinemas := map c | c in t.cinemas && c != id :: t.cinemas[c]);
    var r := DeleteCinema(t, id);
    var gone := ScreensOf(t.screens, id);
    assert ResolvesExcept(mid, gone, {});
    assert r == DropScreens(mid, gone);
    assert forall s :: s in r.screens ==> s in t.screens && t.screens[s].cinemaId != id;
    assert forall s :: s in t.screens && t.screens[s].cinemaId != id ==> s in r.screens;
    assert forall x :: x in r.shows <==> x in t.shows && t.shows[x].screenId !in gone;
    DropScreensKeepsConsistent(mid, gone);
  }

  /**
   * Deleting a screen removes exactly the shows on it and their bookings;
   * every other row stays as it was, and the store stays consistent.
   */
  lemma DeleteScreenCascades(t: Tables, id: int)
    requires Consistent(t)
    ensures var r := DeleteScreen(t, id);
      && Consistent(r)
      && r.screens.Keys == t.screens.Keys - {id}
      && (forall x :: x in r.shows <==> x in t.shows && t.shows[x].screenId != id)
      && (forall b :: b in r.bookings <==> b in t.bookings && t.shows[t.bookings[b].showId].screenId != id)
      && (forall s :: s in r.screens ==> r.screens[s] == t.screens[s])
      && (forall x :: x in r.shows ==> r.shows[x] == t.shows[x])
      && (forall b :: b in r.bookings ==> r.bookings[b] == t.bookings[b])
      && r.cinemas == t.cinemas && r.movies == t.movies && r.users == t.users
  {
    DropScreensKeepsConsistent(t, {id});
  }

  /**
   * Deleting a show removes exactly its bookings; every other row stays as
   * it was, and the store stays consistent.
   */
  lemma DeleteShowCascades(t: Tables, id: int)
    requires Consistent(t)
    ensures var r := DeleteShow(t, id);
      && Consistent(r)
      && r.shows.Keys == t.shows.Keys - {id}
      && (forall b :: b in r.bookings <==> b in t.bookings && t.bookings[b].showId != id)
      && (forall x :: x in r.shows ==> r.shows[x] == t.shows[x])
      && (forall b :: b in r.bookings ==> r.bookings[b] == t.bookings[b])
      && r.cinemas == t.cinemas && r.screens == t.screens && r.movies == t.movies && r.users == t.users
  {
    DropShowsKeepsConsistent(t, {id});
  }

  /**
   * Deleting a movie removes exactly its shows and their bookings (the
   * delete cascades rather than being refused); every other row stays as it
   * was, and the store stays consistent.
   */
  lemma DeleteMovieCascades(t: Tables, id: int)
    requires Consistent(t)
    ensures var r := DeleteMovie(t, id);
      && Consistent(r)
      && r.movies.Keys == t.movies.Keys - {id}
      && (forall x :: x in r.shows <==> x in t.shows && t.shows[x].movieId != id)
      && (forall b :: b in r.bookings <==> b in t.bookings && t.shows[t.bookings[b].showId].movieId != id)
      && (forall m :: m in r.movies ==> r.movies[m] == t.movies[m])
      && (forall x :: x in r.shows ==> r.shows[x] == t.shows[x])
      && (forall b :: b in r.bookings ==> r.bookings[b] == t.bookings[b])
      && r.cinemas == t.cinemas && r.screens == t.screens && r.users == t.users
  {
    var mid := t.(movies := map m | m in t.movies && m != id :: t.movies[m]);
    var gone := ShowsOfMovie(t.shows, id);
    assert ResolvesExcept(mid, {}, gone);
    DropShowsKeepsConsistent(mid, gone);
  }
}
