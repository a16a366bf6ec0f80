/**
 * The database behind the API, with the service functions that change it.
 * Each table is a map from id to row; ids come from one increasing counter.
 * Every catalog mutation first checks the caller's admin flag (403) and,
 * for an existing row, its presence (404); bookings carry the caller's id.
 * A commit that a foreign-key or unique constraint refuses is rolled back
 * and reported as IntegrityViolation, one with a value too wide for its
 * column as DataRejected; either leaves the tables as they were.
 */
module Store {
  import opened Common
  import opened Records
  import opened SeatRules
  import opened Catalog
  import opened Reservation

  /** Every row id lies below the next id to hand out. */
  predicate IdsBelow(t: Tables, next: int)
  {
    && (forall id :: id in t.users ==> id < next)
    && (forall id :: id in t.cinemas ==> id < next)
    && (forall id :: id in t.screens ==> id < next)
    && (forall id :: id in t.movies ==> id < next)
    && (forall id :: id in t.shows ==> id < next)
    && (forall id :: id in t.bookings ==> id < next)
  }

  /** Some booking in `todo` was created no earlier than any other in `todo`. */
  lemma {:induction false} NewestExists(todo: set<int>, bookings: map<int, Booking>)
    requires todo != {} && todo <= bookings.Keys
    ensures exists m :: m in todo && forall k :: k in todo ==> bookings[k].createdAt <= bookings[m].createdAt
    decreases |todo|
  {
    if forall k :: k !in todo {
      assert false;
    }
    var x :| x in todo;
    var rest := todo - {x};
    if rest != {} {
      NewestExists(rest, bookings);
      var m :| m in rest && forall k :: k in rest ==> bookings[k].createdAt <= bookings[m].createdAt;
      if bookings[m].createdAt < bookings[x].createdAt {
        assert forall k :: k in todo ==> bookings[k].createdAt <= bookings[x].createdAt;
      } else {
        assert forall k :: k in todo ==> bookings[k].createdAt <= bookings[m].createdAt;
      }
    } else {
      assert todo == {x};
    }
  }

  /** The ids of a list of bookings. */
  function IdsOf(r: seq<BookingOut>): set<int>
  {
    set k | 0 <= k < |r| :: r[k].id
  }

  lemma IdsOfAppend(r: seq<BookingOut>, o: BookingOut)
    ensures IdsOf(r + [o]) == IdsOf(r) + {o.id}
  {
    var r' := r + [o];
    assert r'[|r|] == o;
    assert forall k :: 0 <= k < |r| ==> r'[k] == r[k];
  }

  lemma IdsOfMember(r: seq<BookingOut>, id: int)
    requires id in IdsOf(r)
    ensures exists k :: 0 <= k < |r| && r[k].id == id
  {
  }

  /** The ids of a user's bookings. */
  function BookingsOf(bookings: map<int, Booking>, userId: int): set<int>
  {
    set id | id in bookings && bookings[id].userId == userId
  }

  /** Each listed entry renders a booking of the user, and no id is listed twice. */
  predicate ListsOwnBookings(bookings: map<int, Booking>, userId: int, r: seq<BookingOut>)
  {
    && (forall k :: 0 <= k < |r| ==>
          r[k].id in bookings && r[k] == ToOut(r[k].id, bookings[r[k].id]) && r[k].userId == userId)
    && (forall i, j :: 0 <= i < j < |r| ==> r[i].id != r[j].id)
  }

  predicate NewestFirstOrder(r: seq<BookingOut>)
  {
    forall i, j :: 0 <= i < j < |r| ==> r[i].createdAt >= r[j].createdAt
  }

  /** The state of the selection loop: `r` lists the newest bookings, `todo` holds the rest. */
  ghost predicate Selecting(bookings: map<int, Booking>, userId: int, todo: set<int>, r: seq<BookingOut>)
  {
    && BookingsOf(bookings, userId) == todo + IdsOf(r)
    && todo !! IdsOf(r)
    && ListsOwnBookings(bookings, userId, r)
    && NewestFirstOrder(r)
    && (forall k, id :: 0 <= k < |r| && id in todo ==> r[k].createdAt >= bookings[id].createdAt)
  }

  /** Listing the newest remaining booking keeps the selection state. */
  lemma SelectStep(bookings: map<int, Booking>, userId: int, todo: set<int>, r: seq<BookingOut>, id: int)
    requires Selecting(bookings, userId, todo, r)
    requires id in todo && forall k :: k in todo ==> bookings[k].createdAt <= bookings[id].createdAt
    ensures Selecting(bookings, userId, todo - {id}, r + [ToOut(id, bookings[id])])
  {
    var o := ToOut(id, bookings[id]);
    var r' := r + [o];
    IdsOfAppend(r, o);
    assert r'[|r|] == o;
    assert forall k :: 0 <= k < |r| ==> r'[k] == r[k];
    assert id !in IdsOf(r);
    forall k | 0 <= k < |r| ensures r[k].id != id {
      assert r[k].id in IdsOf(r);
    }
  }

  /**
   * A user's bookings ordered by creation time, newest first: repeatedly
   * takes the newest booking not yet listed.
   */
  method NewestFirst(bookings: map<int, Booking>, userId: int) returns (r: seq<BookingOut>)
    ensures ListsOwnBookings(bookings, userId, r)
    ensures forall id :: id in bookings && bookings[id].userId == userId ==>
              exists k :: 0 <= k < |r| && r[k].id == id
    ensures NewestFirstOrder(r)
  {
    var todo := BookingsOf(bookings, userId);
    r := [];
    while todo != {}
      invariant Selecting(bookings, userId, todo, r)
      decreases |todo|
    {
      NewestExists(todo, bookings);
      var id :| id in todo && forall k :: k in todo ==> bookings[k].createdAt <= bookings[id].createdAt;
      SelectStep(bookings, userId, todo, r, id);
      r := r + [ToOut(id, bookings[id])];
      todo := todo - {id};
    }
    forall id | id in bookings && bookings[id].userId == userId
      ensures exists k :: 0 <= k < |r| && r[k].id == id
    {
      assert id in BookingsOf(bookings, userId);
      IdsOfMember(r, id);
    }
  }

  class Database {
    var users: map<int, User>
    var cinemas: map<int, Cinema>
    var screens: map<int, Screen>
    var movies: map<int, Movie>
    var shows: map<int, Show>
    var bookings: map<int, Booking>
    var nextId: int

    function Snapshot(): Tables
      reads this
    {
      Tables(users, cinemas, screens, movies, shows, bookings)
    }

    ghost predicate Valid()
      reads this
    {
      Consistent(Snapshot()) && IdsBelow(Snapshot(), nextId)
    }

    constructor ()
      ensures Valid() && Snapshot() == EmptyTables()
    {
      users, cinemas, screens, movies, shows, bookings := map[], map[], map[], map[], map[], map[];
      nextId := 1;
    }

    /** Hands out a fresh id for a new row. */
    method FreshId() returns (id: int)
      requires Valid()
      modifies this`nextId
      ensures Valid() && id == old(nextId) && nextId == id + 1
      ensures id !in users && id !in cinemas && id !in screens && id !in movies && id !in shows && id !in bookings
    {
      id := nextId;
      nextId := nextId + 1;
    }

    /**
     * Writes the tables a cascading delete leaves behind. The cascade runs
     * inside the object-relational mapper as part of one delete, so the
     * store is replaced by its result in one step.
     */
    method Commit(t: Tables)
      requires Consistent(t) && IdsBelow(t, nextId)
      modifies this
      ensures Valid() && Snapshot() == t && nextId == old(nextId)
    {
      users, cinemas, screens, movies, shows, bookings := t.users, t.cinemas, t.screens, t.movies, t.shows, t.bookings;
    }

    // ----- Users -----

    /**
     * Signup: a password of at least 6 characters and an email not yet
     * registered; the name and email must also fit their columns.
     */
    method RegisterUser(name: string, email: string, password: string) returns (r: Result<int>)
      requires Valid()
      modifies this
      ensures Valid()
      ensures !PasswordAccepted(password) ==> r == Err(Unprocessable)
      ensures (PasswordAccepted(password) && exists u :: u in old(users) && old(users)[u].email == email)
                ==> r == Err(EmailTaken)
      ensures (PasswordAccepted(password) && (forall u :: u in old(users) ==> old(users)[u].email != email)
               && !UserFits(User(name, email, false))) ==> r == Err(DataRejected)
      ensures r.Ok? <==> PasswordAccepted(password) && (forall u :: u in old(users) ==> old(users)[u].email != email)
                         && UserFits(User(name, email, false))
      ensures r.Err? ==> Snapshot() == old(Snapshot())
      ensures r.Ok? ==> r.value !in old(users) && Snapshot() == old(Snapshot()).(users := old(users)[r.value := User(name, email, false)])
    {
      if !PasswordAccepted(password) {
        return Err(Unprocessable);
      }
      if exists u :: u in users && users[u].email == email {
        return Err(EmailTaken);
      }
      if !UserFits(User(name, email, false)) {
        return Err(DataRejected);
      }
      var id := FreshId();
      users := users[id := User(name, email, false)];
      r := Ok(id);
    }

    // ----- Cinemas -----

    function GetCinema(id: int): (r: Option<Cinema>)
      reads this
      ensures r.Some? <==> id in cinemas
      ensures r.Some? ==> r.value == cinemas[id]
    {
      if id in cinemas then Some(cinemas[id]) else None
    }

    method CreateCinema(isAdmin: bool, name: string, location: string) returns (r: Result<int>)
      requires Valid()
      modifies this
      ensures Valid()
      ensures !isAdmin ==> r == Err(AdminRequired)
      ensures isAdmin && !CinemaFits(Cinema(name, location)) ==> r == Err(DataRejected)
      ensures r.Ok? <==> isAdmin && CinemaFits(Cinema(name, location))
      ensures r.Err? ==> Snapshot() == old(Snapshot())
      ensures r.Ok? ==> r.value !in old(cinemas)
                        && Snapshot() == old(Snapshot()).(cinemas := old(cinemas)[r.value := Cinema(name, location)])
    {
      if !isAdmin {
        return Err(AdminRequired);
      }
      if !CinemaFits(Cinema(name, location)) {
        return Err(DataRejected);
      }
      var id := FreshId();
      cinemas := cinemas[id := Cinema(name, location)];
      r := Ok(id);
    }

    method UpdateCinema(isAdmin: bool, id: int, u: CinemaUpdate) returns (r: Result<Cinema>)
      requires Valid()
      modifies this
      ensures Valid()
      ensures !isAdmin ==> r == Err(AdminRequired)
      ensures isAdmin && id !in old(cinemas) ==> r == Err(NotFound(CinemaEntity))
      ensures (isAdmin && id in old(cinemas) && !CinemaFits(ApplyCinemaUpdate(old(cinemas)[id], u)))
                ==> r == Err(DataRejected)
      ensures r.Ok? <==> isAdmin && id in old(cinemas) && CinemaFits(ApplyCinemaUpdate(old(cinemas)[id], u))
      ensures r.Err? ==> Snapshot() == old(Snapshot())
      ensures r.Ok? ==> r.value == ApplyCinemaUpdate(old(cinemas)[id], u)
                        && Snapshot() == old(Snapshot()).(cinemas := old(cinemas)[id := r.value])
    {
      if !isAdmin {
        return Err(AdminRequired);
      }
      if id !in cinemas {
        return Err(NotFound(CinemaEntity));
      }
      var c := ApplyCinemaUpdate(cinemas[id], u);
      if !CinemaFits(c) {
        return Err(DataRejected);
      }
      cinemas := cinemas[id := c];
      r := Ok(c);
    }

    /** Deletes a cinema with its screens, their shows and those shows' bookings. */
    method DeleteCinema(isAdmin: bool, id: int) returns (r: Result<()>)
      requires Valid()
      modifies this
      ensures Valid()
      ensures !isAdmin ==> r == Err(AdminRequired)
      ensures isAdmin && id !in old(cinemas) ==> r == Err(NotFound(CinemaEntity))
      ensures r.Ok? <==> isAdmin && id in old(cinemas)
      ensures r.Err? ==> Snapshot() == old(Snapshot())
      ensures r.Ok? ==> Snapshot() == Catalog.DeleteCinema(old(Snapshot()), id)
    {
      if !isAdmin {
        return Err(AdminRequired);
      }
      if id !in cinemas {
        return Err(NotFound(CinemaEntity));
      }
      DeleteCinemaCascades(Snapshot(), id);
      Commit(Catalog.DeleteCinema(Snapshot(), id));
      r := Ok(());
    }

    // ----- Screens -----

    function GetScreen(id: int): (r: Option<Screen>)
      reads this
      ensures r.Some? <==> id in screens
      ensures r.Some? ==> r.value == screens[id]
    {
      if id in screens then Some(screens[id]) else None
    }

    /** Does another screen of the same cinema already carry this name? */
    predicate ScreenNameTaken(except: int, s: Screen)
      reads this
    {
      exists o :: o in screens && o != except && screens[o].cinemaId == s.cinemaId && screens[o].name == s.name
    }

    method CreateScreen(isAdmin: bool, cinemaId: int, name: string) returns (r: Result<int>)
      requires Valid()
      modifies this
      ensures Valid()
      ensures !isAdmin ==> r == Err(AdminRequired)
      ensures isAdmin && !ScreenFits(Screen(cinemaId, name)) ==> r == Err(DataRejected)
      ensures (isAdmin && ScreenFits(Screen(cinemaId, name))
               && (cinemaId !in old(cinemas) || old(ScreenNameTaken(nextId, Screen(cinemaId, name)))))
                ==> r == Err(IntegrityViolation)
      ensures r.Ok? <==> isAdmin && ScreenFits(Screen(cinemaId, name))
                         && cinemaId in old(cinemas) && !old(ScreenNameTaken(nextId, Screen(cinemaId, name)))
      ensures r.Err? ==> Snapshot() == old(Snapshot())
      ensures r.Ok? ==> r.value !in old(screens)
                        && Snapshot() == old(Snapshot()).(screens := old(screens)[r.value := Screen(cinemaId, name)])
    {
      if !isAdmin {
        return Err(AdminRequired);
      }
      var s := Screen(cinemaId, name);
      if !ScreenFits(s) {
        return Err(DataRejected);
      }
      if cinemaId !in cinemas || ScreenNameTaken(nextId, s) {
        return Err(IntegrityViolation);
      }
      var id := FreshId();
      screens := screens[id := s];
      r := Ok(id);
    }

    /** Renames a screen; its cinema never changes. */
    method UpdateScreen(isAdmin: bool, id: int, u: ScreenUpdate) returns (r: Result<Screen>)
      requires Valid()
      modifies this
      ensures Valid()
      ensures !isAdmin ==> r == Err(AdminRequired)
      ensures isAdmin && id !in old(screens) ==> r == Err(NotFound(ScreenEntity))
      ensures (isAdmin && id in old(screens) && !ScreenFits(ApplyScreenUpdate(old(screens)[id], u)))
                ==> r == Err(DataRejected)
      ensures (isAdmin && id in old(screens) && ScreenFits(ApplyScreenUpdate(old(screens)[id], u))
               && old(ScreenNameTaken(id, ApplyScreenUpdate(screens[id], u))))
                ==> r == Err(IntegrityViolation)
      ensures r.Ok? <==> isAdmin && id in old(screens) && ScreenFits(ApplyScreenUpdate(old(screens)[id], u))
                         && !old(ScreenNameTaken(id, ApplyScreenUpdate(screens[id], u)))
      ensures r.Err? ==> Snapshot() == old(Snapshot())
      ensures r.Ok? ==> r.value == ApplyScreenUpdate(old(screens)[id], u)
                        && r.value.cinemaId == old(screens)[id].cinemaId
                        && Snapshot() == old(Snapshot()).(screens := old(screens)[id := r.value])
    {
      if !isAdmin {
        return Err(AdminRequired);
      }
      if id !in screens {
        return Err(NotFound(ScreenEntity));
      }
      var s := ApplyScreenUpdate(screens[id], u);
      if !ScreenFits(s) {
        return Err(DataRejected);
      }
      if ScreenNameTaken(id, s) {
        return Err(IntegrityViolation);
      }
      screens := screens[id := s];
      r := Ok(s);
    }

    /** Deletes a screen with its shows and their bookings. */
    method DeleteScreen(isAdmin: bool, id: int) returns (r: Result<()>)
      requires Valid()
      modifies this
      ensures Valid()
      ensures !isAdmin ==> r == Err(AdminRequired)
      ensures isAdmin && id !in old(screens) ==> r == Err(NotFound(ScreenEntity))
      ensures r.Ok? <==> isAdmin && id in old(screens)
      ensures r.Err? ==> Snapshot() == old(Snapshot())
      ensures r.Ok? ==> Snapshot() == Catalog.DeleteScreen(old(Snapshot()), id)
    {
      if !isAdmin {
        return Err(AdminRequired);
      }
      if id !in screens {
        return Err(NotFound(ScreenEntity));
      }
      DeleteScreenCascades(Snapshot(), id);
      Commit(Catalog.DeleteScreen(Snapshot(), id));
      r := Ok(());
    }

    // ----- Movies -----

    function GetMovie(id: int): (r: Option<Movie>)
      reads this
      ensures r.Some? <==> id in movies
      ensures r.Some? ==> r.value == movies[id]
    {
      if id in movies then Some(movies[id]) else None
    }

    /**
     * Any duration the column can hold is accepted, including zero and
     * negative ones; the title must fit its column.
     */
    method CreateMovie(isAdmin: bool, title: string, description: string, duration: int) returns (r: Result<int>)
      requires Valid()
      modifies this
      ensures Valid()
      ensures !isAdmin ==> r == Err(AdminRequired)
      ensures isAdmin && !MovieFits(Movie(title, description, duration)) ==> r == Err(DataRejected)
      ensures r.Ok? <==> isAdmin && MovieFits(Movie(title, description, duration))
      ensures r.Err? ==> Snapshot() == old(Snapshot())
      ensures r.Ok? ==> r.value !in old(movies)
                        && Snapshot() == old(Snapshot()).(movies := old(movies)[r.value := Movie(title, description, duration)])
    {
      if !isAdmin {
        return Err(AdminRequired);
      }
      if !MovieFits(Movie(title, description, duration)) {
        return Err(DataRejected);
      }
      var id := FreshId();
      movies := movies[id := Movie(title, description, duration)];
      r := Ok(id);
    }

    method UpdateMovie(isAdmin: bool, id: int, u: MovieUpdate) returns (r: Result<Movie>)
      requires Valid()
      modifies this
      ensures Valid()
      ensures !isAdmin ==> r == Err(AdminRequired)
      ensures isAdmin && id !in old(movies) ==> r == Err(NotFound(MovieEntity))
      ensures (isAdmin && id in old(movies) && !MovieFits(ApplyMovieUpdate(old(movies)[id], u)))
                ==> r == Err(DataRejected)
      ensures r.Ok? <==> isAdmin && id in old(movies) && MovieFits(ApplyMovieUpdate(old(movies)[id], u))
      ensures r.Err? ==> Snapshot() == old(Snapshot())
      ensures r.Ok? ==> r.value == ApplyMovieUpdate(old(movies)[id], u)
                        && Snapshot() == old(Snapshot()).(movies := old(movies)[id := r.value])
    {
      if !isAdmin {
        return Err(AdminRequired);
      }
      if id !in movies {
        return Err(NotFound(MovieEntity));
      }
      var m := ApplyMovieUpdate(movies[id], u);
      if !MovieFits(m) {
        return Err(DataRejected);
      }
      movies := movies[id := m];
      r := Ok(m);
    }

    /** Deletes a movie with its shows and their bookings. */
    method DeleteMovie(isAdmin: bool, id: int) returns (r: Result<()>)
      requires Valid()
      modifies this
      ensures Valid()
      ensures !isAdmin ==> r == Err(AdminRequired)
      ensures isAdmin && id !in old(movies) ==> r == Err(NotFound(MovieEntity))
      ensures r.Ok? <==> isAdmin && id in old(movies)
      ensures r.Err? ==> Snapshot() == old(Snapshot())
      ensures r.Ok? ==> Snapshot() == Catalog.DeleteMovie(old(Snapshot()), id)
    {
      if !isAdmin {
        return Err(AdminRequired);
      }
      if id !in movies {
        return Err(NotFound(MovieEntity));
      }
      DeleteMovieCascades(Snapshot(), id);
      Commit(Catalog.DeleteMovie(Snapshot(), id));
      r := Ok(());
    }

    // ----- Shows -----

    function GetShow(id: int): (r: Option<Show>)
      reads this
      ensures r.Some? <==> id in shows
      ensures r.Some? ==> r.value == shows[id]
    {
      if id in shows then Some(shows[id]) else None
    }

    /** Would storing `s` under id `self` break a foreign key or the (screen, start time) uniqueness? */
    predicate ShowRejected(self: int, s: Show)
      reads this
    {
      || s.movieId !in movies
      || s.screenId !in screens
      || exists o :: o in shows && o != self && shows[o].screenId == s.screenId && shows[o].startTime == s.startTime
    }

    method CreateShow(isAdmin: bool, movieId: int, screenId: int, startTime: int) returns (r: Result<int>)
      requires Valid()
      modifies this
      ensures Valid()
      ensures !isAdmin ==> r == Err(AdminRequired)
      ensures isAdmin && old(ShowRejected(nextId, Show(movieId, screenId, startTime))) ==> r == Err(IntegrityViolation)
      ensures r.Ok? <==> isAdmin && !old(ShowRejected(nextId, Show(movieId, screenId, startTime)))
      ensures r.Err? ==> Snapshot() == old(Snapshot())
      ensures r.Ok? ==> r.value !in old(shows)
                        && Snapshot() == old(Snapshot()).(shows := old(shows)[r.value := Show(movieId, screenId, startTime)])
    {
      if !isAdmin {
        return Err(AdminRequired);
      }
      var s := Show(movieId, screenId, startTime);
      if ShowRejected(nextId, s) {
        return Err(IntegrityViolation);
      }
      var id := FreshId();
      shows := shows[id := s];
      r := Ok(id);
    }

    /** Changes whichever of movie, screen and start time are supplied; the show keeps its bookings. */
    method UpdateShow(isAdmin: bool, id: int, u: ShowUpdate) returns (r: Result<Show>)
      requires Valid()
      modifies this
      ensures Valid()
      ensures !isAdmin ==> r == Err(AdminRequired)
      ensures isAdmin && id !in old(shows) ==> r == Err(NotFound(ShowEntity))
      ensures (isAdmin && id in old(shows) && old(ShowRejected(id, ApplyShowUpdate(shows[id], u))))
                ==> r == Err(IntegrityViolation)
      ensures r.Ok? <==> isAdmin && id in old(shows) && !old(ShowRejected(id, ApplyShowUpdate(shows[id], u)))
      ensures r.Err? ==> Snapshot() == old(Snapshot())
      ensures r.Ok? ==> r.value == ApplyShowUpdate(old(shows)[id], u)
                        && Snapshot() == old(Snapshot()).(shows := old(shows)[id := r.value])
    {
      if !isAdmin {
        return Err(AdminRequired);
      }
      if id !in shows {
        return Err(NotFound(ShowEntity));
      }
      var s := ApplyShowUpdate(shows[id], u);
      if ShowRejected(id, s) {
        return Err(IntegrityViolation);
      }
      shows := shows[id := s];
      r := Ok(s);
    }

    /** Deletes a show with its bookings. */
    method DeleteShow(isAdmin: bool, id: int) returns (r: Result<()>)
      requires Valid()
      modifies this
      ensures Valid()
      ensures !isAdmin ==> r == Err(AdminRequired)
      ensures isAdmin && id !in old(shows) ==> r == Err(NotFound(ShowEntity))
      ensures r.Ok? <==> isAdmin && id in old(shows)
      ensures r.Err? ==> Snapshot() == old(Snapshot())
      ensures r.Ok? ==> Snapshot() == Catalog.DeleteShow(old(Snapshot()), id)
    {
      if !isAdmin {
        return Err(AdminRequired);
      }
      if id !in shows {
        return Err(NotFound(ShowEntity));
      }
      DeleteShowCascades(Snapshot(), id);
      Commit(Catalog.DeleteShow(Snapshot(), id));
      r := Ok(());
    }

    // ----- Bookings -----

    /** Collects every seat held by a booking of the show. */
    method LoadBooked(showId: int) returns (booked: set<Seat>)
      ensures booked == BookedSeats(bookings, showId)
    {
      booked := {};
      var todo := bookings.Keys;
      while todo != {}
        invariant todo <= bookings.Keys
        invariant forall s :: s in booked <==>
          exists id :: id in bookings && id !in todo && bookings[id].showId == showId && s in bookings[id].seats
        decreases |todo|
      {
        if forall k :: k !in todo {
          assert false;
        }
        var id :| id in todo;
        var b := bookings[id];
        if b.showId == showId {
          var j := 0;
          while j < |b.seats|
            invariant 0 <= j <= |b.seats|
            invariant forall s :: s in booked <==>
              (exists id' :: id' in bookings && id' !in todo && bookings[id'].showId == showId && s in bookings[id'].seats)
              || s in b.seats[..j]
          {
            booked := booked + {b.seats[j]};
            j := j + 1;
            assert b.seats[..j] == b.seats[..j - 1] + [b.seats[j - 1]];
          }
          assert b.seats[..j] == b.seats;
        }
        todo := todo - {id};
      }
    }

    /**
     * Books seats of a show for the calling user: the request schema (1 to 6
     * seats), seat validation, the show lookup and the conflict check run in
     * this order, and only then is the booking stored.
     */
    method CreateBooking(userId: int, showId: int, seats: seq<Seat>, now: int) returns (r: Result<BookingOut>)
      requires Valid() && userId in users
      modifies this
      ensures Valid()
      ensures r.Err? <==> Admit(old(Snapshot()), showId, seats).Some?
      ensures r.Err? ==> Some(r.error) == Admit(old(Snapshot()), showId, seats) && Snapshot() == old(Snapshot())
      ensures r.Ok? ==> r.value.id !in old(bookings)
                        && r.value == ToOut(r.value.id, Booking(userId, showId, seats, now))
                        && Snapshot() == Insert(old(Snapshot()), r.value.id, Booking(userId, showId, seats, now))
    {
      if !SeatCountAccepted(seats) {
        return Err(Unprocessable);
      }
      var verdict := ValidateSeats(seats);
      if verdict.Some? {
        return Err(verdict.value);
      }
      if showId !in shows {
        return Err(NotFound(ShowEntity));
      }
      var booked := LoadBooked(showId);
      var requested := Requested(seats);
      if booked * requested != {} {
        return Err(SeatsTaken);
      }
      var id := FreshId();
      var b := Booking(userId, showId, seats, now);
      InsertKeepsConsistent(Snapshot(), id, userId, showId, seats, now);
      bookings := bookings[id := b];
      r := Ok(ToOut(id, b));
    }

    /** The caller's bookings, newest first. */
    method ListUserBookings(userId: int) returns (r: seq<BookingOut>)
      ensures forall k :: 0 <= k < |r| ==>
                r[k].id in bookings && r[k] == ToOut(r[k].id, bookings[r[k].id]) && r[k].userId == userId
      ensures forall id :: id in bookings && bookings[id].userId == userId ==>
                exists k :: 0 <= k < |r| && r[k].id == id
      ensures forall i, j :: 0 <= i < j < |r| ==> r[i].id != r[j].id
      ensures forall i, j :: 0 <= i < j < |r| ==> r[i].createdAt >= r[j].createdAt
    {
      r := NewestFirst(bookings, userId);
    }

    /** Cancels a booking; a booking of someone else is reported exactly like a missing one. */
    method CancelBooking(userId: int, bookingId: int) returns (r: Result<()>)
      requires Valid()
      modifies this
      ensures Valid()
      ensures r.Ok? <==> bookingId in old(bookings) && old(bookings)[bookingId].userId == userId
      ensures r.Err? ==> r.error == NotFound(BookingEntity) && Snapshot() == old(Snapshot())
      ensures r.Ok? ==> Snapshot() == RemoveBooking(old(Snapshot()), bookingId)
    {
      if bookingId !in bookings || bookings[bookingId].userId != userId {
        return Err(NotFound(BookingEntity));
      }
      RemoveKeepsConsistent(Snapshot(), bookingId);
      bookings := map k | k in bookings && k != bookingId :: bookings[k];
      r := Ok(());
    }
  }
}
