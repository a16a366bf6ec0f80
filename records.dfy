/**
 * The persisted entities of the booking system and the request shapes that
 * carry partial updates. Timestamps are abstract integers; a seat is the
 * (row, col) pair of the request schema, with no range constraint at this
 * level (the range is the booking service's business).
 */
module Records {
  import opened Common

  datatype Seat = Seat(row: int, col: int)

  /** A registered account; the password hash is not modelled. */
  datatype User = User(name: string, email: string, isAdmin: bool)

  datatype Cinema = Cinema(name: string, location: string)

  /** A screen belongs to exactly one cinema. */
  datatype Screen = Screen(cinemaId: int, name: string)

  /** The duration is a number of minutes; the request schema puts no bound on it. */
  datatype Movie = Movie(title: string, description: string, duration: int)

  datatype Show = Show(movieId: int, screenId: int, startTime: int)

  /** A reservation of the listed seats of one show by one user. */
  datatype Booking = Booking(userId: int, showId: int, seats: seq<Seat>, createdAt: int)

  /** A booking as the API returns it, with its id. */
  datatype BookingOut = BookingOut(id: int, userId: int, showId: int, seats: seq<Seat>, createdAt: int)

  function ToOut(id: int, b: Booking): (o: BookingOut)
    ensures o.id == id && o.userId == b.userId && o.showId == b.showId
    ensures o.seats == b.seats && o.createdAt == b.createdAt
  {
    BookingOut(id, b.userId, b.showId, b.seats, b.createdAt)
  }

  // Column types of the database (PostgreSQL): `Integer` holds a signed
  // 32-bit value and `String(n)` at most n characters. A row with a value
  // that does not fit is refused when it is committed.
  const MinInteger := -0x8000_0000
  const MaxInteger := 0x7FFF_FFFF
  const UserNameWidth := 100
  const EmailWidth := 255
  const CinemaNameWidth := 150
  const LocationWidth := 255
  const ScreenNameWidth := 100
  const TitleWidth := 200

  predicate FitsInteger(x: int)
  {
    MinInteger <= x <= MaxInteger
  }

  predicate FitsString(s: string, width: nat)
  {
    |s| <= width
  }

  predicate UserFits(u: User)
  {
    FitsString(u.name, UserNameWidth) && FitsString(u.email, EmailWidth)
  }

  predicate CinemaFits(c: Cinema)
  {
    FitsString(c.name, CinemaNameWidth) && FitsString(c.location, LocationWidth)
  }

  predicate ScreenFits(s: Screen)
  {
    FitsString(s.name, ScreenNameWidth)
  }

  /** The description is `Text`, which has no width. */
  predicate MovieFits(m: Movie)
  {
    FitsString(m.title, TitleWidth) && FitsInteger(m.duration)
  }

  // Bounds the request schemas put on a booking and on a signup.
  const MinSeatsPerBooking := 1
  const MaxSeatsPerBooking := 6
  const MinPasswordLength := 6

  /** The seat-count constraint of a booking request. */
  predicate SeatCountAccepted(seats: seq<Seat>)
  {
    MinSeatsPerBooking <= |seats| <= MaxSeatsPerBooking
  }

  /** The password-length constraint of a signup request. */
  predicate PasswordAccepted(password: string)
  {
    |password| >= MinPasswordLength
  }

  // Partial updates: every field is optional and None means "leave as is".
  datatype CinemaUpdate = CinemaUpdate(name: Option<string>, location: Option<string>)

  /** A screen update can rename the screen and nothing else. */
  datatype ScreenUpdate = ScreenUpdate(name: Option<string>)

  datatype MovieUpdate = MovieUpdate(title: Option<string>, description: Option<string>, duration: Option<int>)

  datatype ShowUpdate = ShowUpdate(movieId: Option<int>, screenId: Option<int>, startTime: Option<int>)

  function Pick<T>(given: Option<T>, current: T): T
  {
    if given.Some? then given.value else current
  }

  function ApplyCinemaUpdate(c: Cinema, u: CinemaUpdate): (r: Cinema)
    ensures r.name == (if u.name.Some? then u.name.value else c.name)
    ensures r.location == (if u.location.Some? then u.location.value else c.location)
    ensures u == CinemaUpdate(None, None) ==> r == c
  {
    c.(name := Pick(u.name, c.name), location := Pick(u.location, c.location))
  }

  function ApplyScreenUpdate(s: Screen, u: ScreenUpdate): (r: Screen)
    ensures r.cinemaId == s.cinemaId
    ensures r.name == (if u.name.Some? then u.name.value else s.name)
    ensures u.name.None? ==> r == s
  {
    s.(name := Pick(u.name, s.name))
  }

  function ApplyMovieUpdate(m: Movie, u: MovieUpdate): (r: Movie)
    ensures r.title == (if u.title.Some? then u.title.value else m.title)
    ensures r.description == (if u.description.Some? then u.description.value else m.description)
    ensures r.duration == (if u.duration.Some? then u.duration.value else m.duration)
    ensures u == MovieUpdate(None, None, None) ==> r == m
  {
    m.(title := Pick(u.title, m.title),
       description := Pick(u.description, m.description),
       duration := Pick(u.duration, m.duration))
  }

  function ApplyShowUpdate(s: Show, u: ShowUpdate): (r: Show)
    ensures r.movieId == (if u.movieId.Some? then u.movieId.value else s.movieId)
    ensures r.screenId == (if u.screenId.Some? then u.screenId.value else s.screenId)
    ensures r.startTime == (if u.startTime.Some? then u.startTime.value else s.startTime)
    ensures u == ShowUpdate(None, None, None) ==> r == s
  {
    s.(movieId := Pick(u.movieId, s.movieId),
       screenId := Pick(u.screenId, s.screenId),
       startTime := Pick(u.startTime, s.startTime))
  }
}
