# Cinema booking: seat reservation and catalog store

This project models the core of a cinema booking system and proves properties of the model.
The back end keeps a catalog of cinemas, screens, movies and shows, and lets users book seats of a show.
The web client lets a user pick a show and select seats, and lets an administrator inspect a show's seat layout.

The model covers these parts:

- **Seat rules** (`SeatRules`). A booking request's seats must all lie on the 10 x 10 grid and must not repeat.
  Validation walks the request in order and reports the first offending seat.
- **Reservation** (`Reservation`). A request is judged against the stored bookings in a fixed order:
  1. the request schema's 1 to 6 seats;
  2. seat validation;
  3. the show lookup;
  4. the conflict with seats already held for the show.

  Storing an admitted booking keeps the seats of each show pairwise disjoint.
- **Catalog** (`Catalog`). The tables are values, keyed by id. The database's column widths, foreign keys and unique constraints, and the seat rules, are collected in `Consistent`.
  Deletes cascade down the ownership chain Cinema → Screen → Show → Booking, and also Movie → Show.
- **Store** (`Store.Database`). A class whose map fields are the tables. Its methods are the service functions, together with the router guards:
  - a 403 when the caller is not an administrator;
  - a 404 when the id is missing;
  - the bookings router passes the caller's id.

  Each method is proved to keep `Consistent` and to leave exactly the tables the catalog and reservation functions describe.
- **Seat grid** (`SeatGrid`). The client's seat-selection component. A click toggles a seat, with a cap of six. The occupied seats are those of the user's own bookings of the show.
- **Booking page** (`BookingPage`). Covers:
  - the show filter by movie and cinema;
  - the reset when the movie changes;
  - the empty-selection guard;
  - the step indicator;
  - the screen loading.
- **Admin layout** (`AdminLayout`). The 80 seat labels A1..H10, the lookup of a feed entry by label, and the show-details lookup.

The shared modules are:

- `Common`: the failures and their HTTP statuses;
- `Records`: the entities and the partial-update shapes;
- `Views`: the client-side records and the JavaScript `find`, `filter` and `some`;
- `Decimal`: decimal numerals.

Behaviours a reader might not expect, as the code implements them:

- Cancelling someone else's booking answers "Booking not found" (404), not a separate Forbidden error.
- Deleting a movie deletes its shows and their bookings; it is not refused.
- A movie's duration is any 32-bit integer. Zero and negative values are accepted.
- The request schemas put no length on names, titles or locations. The database columns do: a user's name holds 100 characters and an email 255; a cinema's name 150 and its location 255; a screen's name 100; a movie's title 200.
  A value that does not fit, or a duration outside the 32-bit range, makes the commit fail with a server error (500), and nothing is stored.
- The 1 to 6 seat bound is checked by the request schema (422) before the service's seat validation.
- The seat grid checks "occupied" before "selected": a click on an occupied seat is always ignored.
- The listing of a user's bookings is ordered by creation time, newest first.

## Model

| member | source | states |
|---|---|---|
| Common.Status | app/services/booking_service.py:17-46 | every failure answers with a 4xx/5xx status, and exactly the "not found" failures answer 404 |
| Common.Detail | app/services/booking_service.py:17-46 | the `detail` string of each failure's body as the services raise it; none for a schema rejection (a list) or a database error (a plain-text body) |
| Records.UserFits | app/models/models.py:20-21 | a user fits its row when the name has at most 100 and the email at most 255 characters |
| Records.CinemaFits | app/models/models.py:32-33 | a cinema fits its row when the name has at most 150 and the location at most 255 characters |
| Records.ScreenFits | app/models/models.py:46 | a screen fits its row when its name has at most 100 characters |
| Records.MovieFits | app/models/models.py:56-58 | a movie fits its row when the title has at most 200 characters and the duration is a signed 32-bit value; the description is unbounded text |
| Records.ToOut | app/schemas/schemas.py:146-150 | the API form of a booking carries its id and the stored user, show, seats and creation time |
| Records.ApplyCinemaUpdate | app/services/cinema_service.py:22-29 | name and location each become the supplied value when one is given and stay otherwise; an update with neither field changes nothing |
| Records.ApplyScreenUpdate | app/services/screen_service.py:22-27 | only the name can change; the screen's cinema never changes; an update without a name changes nothing |
| Records.ApplyMovieUpdate | app/services/movie_service.py:22-31 | title, description and duration each change only when supplied; an empty update changes nothing |
| Records.ApplyShowUpdate | app/services/show_service.py:22-31 | movie, screen and start time each change independently, only when supplied; an empty update changes nothing |
| SeatRules.Requested | app/services/booking_service.py:43 | the requested set holds exactly the seats listed in the request |
| SeatRules.CheckSeatsFrom | app/services/booking_service.py:17-25 | the verdict of validation from position i: the first seat off the grid or already seen earlier in the request decides it |
| SeatRules.CheckSeats | app/services/booking_service.py:17-25 | the verdict of validation on the whole request, characterised by CheckSeatsAccepts and CheckSeatsFromKinds |
| SeatRules.CheckSeatsFromNone | app/services/booking_service.py:17-25 | validation from position i passes exactly when each later seat is on the grid and not seen before it |
| SeatRules.CheckSeatsAccepts | app/services/booking_service.py:9-10 | validation accepts exactly the requests whose seats are all on the 10 x 10 grid and pairwise distinct |
| SeatRules.CheckSeatsFromKinds | app/services/booking_service.py:21-24 | validation fails only with "Seat out of range" or "Duplicate seats not allowed" |
| SeatRules.OutOfRangeReported | app/services/booking_service.py:21-22 | a request without repeats but with a seat off the grid is refused as out of range |
| SeatRules.DuplicateReported | app/services/booking_service.py:23-24 | a request on the grid with a repeated seat is refused as a duplicate |
| SeatRules.DuplicateMeansRepeat | app/services/booking_service.py:23-24 | a duplicate verdict implies that some seat is requested twice |
| SeatRules.OutOfRangeMeansOffGrid | app/services/booking_service.py:21-22 | an out-of-range verdict implies that some seat lies off the grid |
| SeatRules.ValidateSeats | app/services/booking_service.py:17-25 | the loop over the request, keeping the set of seats seen, returns the specified verdict: none exactly for on-grid, repeat-free requests |
| Reservation.BookedSeats | app/services/booking_service.py:28-33 | a seat is booked for a show exactly when some booking of that show holds it |
| Reservation.Admit | app/services/booking_service.py:36-47 | the refusal of a booking request, if any: the schema's seat count, then seat validation, then the show lookup, then the seat conflict; characterised by AdmitExactly and ConflictExactly |
| Reservation.Insert | app/services/booking_service.py:48-52 | the tables after the new booking row is stored under its id, with every other table unchanged |
| Reservation.RemoveBooking | app/services/booking_service.py:63-64 | the tables after the booking row is deleted, with every other table unchanged |
| Reservation.AdmitExactly | app/services/booking_service.py:36-47 | a request is admitted exactly when it has 1 to 6 distinct grid seats, its show exists, and no booking of the show holds any of its seats |
| Reservation.ConflictExactly | app/services/booking_service.py:42-46 | a well-formed request for an existing show gets 409 exactly when one of its seats is held by a booking of that show |
| Reservation.SeatErrorsComeFirst | app/services/booking_service.py:37-40 | seat errors are reported before the show lookup, so also for a missing show, with the right kind of error |
| Reservation.MissingShowNotFound | app/services/booking_service.py:38-40 | a well-formed request for a missing show is answered "Show not found" |
| Reservation.InsertKeepsConsistent | app/services/booking_service.py:48-52 | storing an admitted booking keeps every invariant, in particular per-show seat disjointness |
| Reservation.RemoveKeepsConsistent | app/services/booking_service.py:63-64 | removing a booking keeps every invariant |
| Reservation.BookedSeatConflicts | app/services/booking_service.py:42-46 | once a booking is stored, any request for the same show that shares one of its seats conflicts |
| Reservation.CancelFreesSeats | app/services/booking_service.py:59-64 | after a booking is cancelled, the same seats for the same show are admitted again |
| Catalog.DropShowsKeepsConsistent | app/models/models.py:76 | removing shows together with their bookings leaves a consistent store |
| Catalog.RowsFit | app/models/models.py:20-58 | every stored user, cinema, screen and movie fits the columns of its table |
| Catalog.Consistent | app/models/models.py:16-88 | what the database guarantees of a committed state: fitting rows, resolving foreign keys, unique emails, screen names per cinema and start times per screen, together with well-formed, non-overlapping bookings per show |
| Catalog.DropShows | app/models/models.py:76 | removes the given shows and, by the delete-orphan cascade, their bookings |
| Catalog.DropScreens | app/models/models.py:49 | removes the given screens and, by cascade, their shows and those shows' bookings |
| Catalog.DeleteCinema | app/models/models.py:35 | removes a cinema and cascades to its screens; characterised by DeleteCinemaCascades |
| Catalog.DeleteScreen | app/models/models.py:49 | removes a screen and cascades to its shows; characterised by DeleteScreenCascades |
| Catalog.DeleteShow | app/models/models.py:76 | removes a show and cascades to its bookings; characterised by DeleteShowCascades |
| Catalog.DeleteMovie | app/models/models.py:60 | removes a movie and cascades to its shows; characterised by DeleteMovieCascades |
| Catalog.DropScreensKeepsConsistent | app/models/models.py:49 | removing screens with their shows and those shows' bookings leaves a consistent store |
| Catalog.DeleteCinemaCascades | app/models/models.py:35 | deleting a cinema removes exactly its screens, the shows on them and their bookings; all other rows are unchanged and the store stays consistent |
| Catalog.DeleteScreenCascades | app/models/models.py:49 | deleting a screen removes exactly its shows and their bookings; all other rows are unchanged and the store stays consistent |
| Catalog.DeleteShowCascades | app/models/models.py:76 | deleting a show removes exactly its bookings; all other rows are unchanged and the store stays consistent |
| Catalog.DeleteMovieCascades | app/models/models.py:60 | deleting a movie removes exactly its shows and their bookings, rather than being refused; all other rows are unchanged and the store stays consistent |
| Store.NewestExists | app/services/booking_service.py:56 | any non-empty set of bookings has a newest one |
| Store.SelectStep | app/services/booking_service.py:56 | listing the newest remaining booking keeps the list made of the user's bookings, repeat-free and newest first |
| Store.NewestFirst | app/services/booking_service.py:55-56 | the result lists each of the user's bookings exactly once and nothing else, ordered by creation time descending |
| Store.Database.constructor | app/models/models.py:16-88 | the store starts with empty tables and is consistent |
| Store.Database.FreshId | app/models/models.py:19 | a new row gets an id used by no existing row |
| Store.Database.RegisterUser | services/auth_service.py:16-24 | a password under 6 characters is refused (422), then a registered email (400), then a name over 100 or an email over 255 characters (500); otherwise exactly one non-admin user is added |
| Store.Database.GetCinema | app/services/cinema_service.py:10-11 | yields the cinema with that id, or None when it is absent |
| Store.Database.CreateCinema | app/services/cinema_service.py:14-19 | a non-admin gets 403; a name over 150 or a location over 255 characters is refused by the database (500); each refusal changes nothing; otherwise exactly one cinema with the given name and location is added |
| Store.Database.UpdateCinema | app/services/cinema_service.py:22-29 | 403 for a non-admin, then 404 for a missing id, then the database's refusal (500) when the updated name or location is too wide for its column; otherwise only that cinema changes, by the partial update |
| Store.Database.DeleteCinema | app/services/cinema_service.py:32-34 | 403, then 404; otherwise the tables become the cinema cascade, which stays consistent |
| Store.Database.GetScreen | app/services/screen_service.py:10-11 | yields the screen with that id, or None when it is absent |
| Store.Database.CreateScreen | app/services/screen_service.py:14-19 | 403 for a non-admin; a name over 100 characters, a missing cinema or a name already used in the cinema is refused by the database (500) with nothing stored; otherwise exactly one screen is added |
| Store.Database.UpdateScreen | app/services/screen_service.py:22-27 | 403, then 404, then the refusal of a name over 100 characters, then the unique-name refusal; otherwise only that screen's name changes and its cinema stays |
| Store.Database.DeleteScreen | app/services/screen_service.py:30-32 | 403, then 404; otherwise the tables become the screen cascade |
| Store.Database.GetMovie | app/services/movie_service.py:10-11 | yields the movie with that id, or None when it is absent |
| Store.Database.CreateMovie | app/services/movie_service.py:14-19 | 403 for a non-admin; a title over 200 characters or a duration outside the 32-bit range is refused by the database (500) with nothing stored; otherwise exactly one movie with the given title, description and duration is added |
| Store.Database.UpdateMovie | app/services/movie_service.py:22-31 | 403, then 404, then the database's refusal (500) when the updated title is over 200 characters or the duration outside the 32-bit range; otherwise only that movie changes, by the partial update |
| Store.Database.DeleteMovie | app/services/movie_service.py:34-36 | 403, then 404; otherwise the tables become the movie cascade |
| Store.Database.GetShow | app/services/show_service.py:10-11 | yields the show with that id, or None when it is absent |
| Store.Database.CreateShow | app/services/show_service.py:14-19 | 403 for a non-admin; a missing movie or screen, or a start time already used on the screen, is refused with nothing stored; otherwise exactly one show is added |
| Store.Database.UpdateShow | app/services/show_service.py:22-31 | 403, then 404, then the constraint refusal; otherwise only that show changes, by the partial update |
| Store.Database.DeleteShow | app/services/show_service.py:34-36 | 403, then 404; otherwise the tables become the show cascade |
| Store.Database.LoadBooked | app/services/booking_service.py:28-33 | the nested loop collects exactly the seats held by bookings of the show |
| Store.Database.CreateBooking | app/services/booking_service.py:36-52 | fails exactly when the reservation decision refuses, with that decision's error and nothing stored; otherwise exactly one booking with the caller, show, seats and time is added under a fresh id |
| Store.Database.ListUserBookings | app/services/booking_service.py:55-56 | every booking of the user appears exactly once, nothing else appears, and the list is ordered newest first |
| Store.Database.CancelBooking | app/services/booking_service.py:59-64 | a missing booking and another user's booking both get "Booking not found" and nothing changes; otherwise exactly that booking is removed |
| Views.Find | frontend/src/pages/Booking.jsx:79 | `Array.prototype.find`: the first element the test accepts, or None when there is none; characterised by FindFirst |
| Views.FindFirst | frontend/src/pages/Booking.jsx:79 | `find` succeeds exactly when some element matches, and then yields the first match |
| Views.FindAgrees | frontend/src/pages/Admin.jsx:535 | two tests that agree on every element find the same element |
| Views.Filter | frontend/src/pages/Booking.jsx:78-81 | `filter` keeps exactly the matching elements and never grows the list |
| Views.FilterAll | frontend/src/components/SeatGrid.jsx:45 | filtering a list whose elements all match returns it unchanged |
| Views.FilterDropsOne | frontend/src/components/SeatGrid.jsx:45 | filtering out the one non-matching position removes it and keeps the rest in order |
| Views.Any | frontend/src/components/SeatGrid.jsx:30-36 | `some` holds exactly when some element matches |
| Decimal.DecimalString | frontend/src/pages/Admin.jsx:600 | a numeral is a non-empty string of digits without a leading zero, one digit long exactly below 10 |
| Decimal.ParseDecimalString | frontend/src/pages/Booking.jsx:80 | reading back the numeral of n gives n |
| Decimal.DecimalStringInjective | frontend/src/pages/Admin.jsx:566 | two ids have the same numeral exactly when they are equal |
| Decimal.ParseDecimal | frontend/src/pages/Booking.jsx:80 | `Number(selectedMovie)` on a string of decimal digits: the value it denotes; any other string gives None (NaN, which equals no id) |
| SeatGrid.HasSeat | frontend/src/components/SeatGrid.jsx:30-36 | the seat test holds exactly when (row, col) is in the list |
| SeatGrid.BookedFrom | frontend/src/components/SeatGrid.jsx:17-20 | a seat is occupied exactly when one of the user's bookings of this show holds it |
| SeatGrid.RemoveSeat | frontend/src/components/SeatGrid.jsx:45 | `prev.filter(s => !(s.row === row && s.col === col))`: the selection without every seat at (row, col), the rest in their order |
| SeatGrid.Toggle | frontend/src/components/SeatGrid.jsx:38-53 | the selection after a click: an occupied seat is ignored, a selected one is removed, a seventh new one is refused, any other is appended; characterised by the four Toggle lemmas |
| SeatGrid.ToggleBooked | frontend/src/components/SeatGrid.jsx:39 | clicking an occupied seat leaves the selection unchanged |
| SeatGrid.ToggleDeselects | frontend/src/components/SeatGrid.jsx:42-45 | clicking a selected seat removes exactly that seat; in a repeat-free selection the others keep their order |
| SeatGrid.ToggleRefused | frontend/src/components/SeatGrid.jsx:47-49 | clicking a new free seat when six are selected leaves the selection unchanged |
| SeatGrid.ToggleAppends | frontend/src/components/SeatGrid.jsx:51 | clicking any other free seat appends it at the end |
| SeatGrid.SpliceKeepsSelectionOk | frontend/src/components/SeatGrid.jsx:44-45 | removing one seat from an allowed selection leaves an allowed selection, still on the grid |
| SeatGrid.AppendKeepsSelectionOk | frontend/src/components/SeatGrid.jsx:47-51 | appending a new free seat to fewer than six leaves an allowed selection |
| SeatGrid.ToggleKeepsSelectionOk | frontend/src/components/SeatGrid.jsx:38-53 | against fixed occupied seats, the selection stays at most six distinct free seats, and clicks on the grid keep it on the grid |
| SeatGrid.SelectionPassesValidation | app/schemas/schemas.py:141-143 | a non-empty selection the component allows, of grid seats, passes the request schema's count and the service's seat validation |
| SeatGrid.SeatGridState.constructor | frontend/src/components/SeatGrid.jsx:4-6 | the component starts for its show with no occupied and no selected seats |
| SeatGrid.SeatGridState.FetchBookedSeats | frontend/src/components/SeatGrid.jsx:15-28 | the occupied seats become those of the user's bookings of this show; a failed request leaves them; the selection is untouched |
| SeatGrid.SeatGridState.HandleSeatClick | frontend/src/components/SeatGrid.jsx:38-53 | the selection becomes the toggle of the click; the alert is raised exactly for a seventh free seat; the selection invariant is kept |
| BookingPage.ScreensOfCinema | frontend/src/pages/Booking.jsx:68 | keeps exactly the response's screens of the requested cinema |
| BookingPage.FindScreen | frontend/src/pages/Booking.jsx:79 | the first loaded screen with the show's screen id, if any |
| BookingPage.ShowListed | frontend/src/pages/Booking.jsx:78-81 | the filter's test: the first loaded screen with the show's screen id belongs to the cinema, and the show's movie id equals `Number(selectedMovie)` |
| BookingPage.ShowsForCinema | frontend/src/pages/Booking.jsx:76-82 | the loaded shows listed under a cinema, in their order; characterised by ShowsForCinemaExactly |
| BookingPage.ShowsForCinemaExactly | frontend/src/pages/Booking.jsx:76-82 | no show is offered without a selected movie; an offered show is of the selected movie and on a loaded screen of the cinema; when loaded screens with one id agree on their cinema (a screen loaded twice is the same screen) the converse holds too |
| BookingPage.ShowsOfSelectedMovie | frontend/src/pages/Booking.jsx:80 | with a movie chosen from the list, exactly that movie's shows on the cinema's screens are offered |
| BookingPage.StepStatus | frontend/src/pages/Booking.jsx:131-135 | a step is "completed" below the current one, "active" at it and "" above it |
| BookingPage.StepStatusOrdered | frontend/src/pages/Booking.jsx:131-135 | earlier steps are never behind later ones, and no two steps are active |
| BookingPage.BookingFlow.constructor | frontend/src/pages/Booking.jsx:10-20 | the page starts at step 1 with nothing selected and no error |
| BookingPage.BookingFlow.FetchScreens | frontend/src/pages/Booking.jsx:64-74 | appends exactly the response's screens of the cinema, so every new screen belongs to it; a failed request changes nothing |
| BookingPage.BookingFlow.HandleMovieChange | frontend/src/pages/Booking.jsx:84-88 | sets the movie and clears the selected cinema and show; nothing else changes |
| BookingPage.BookingFlow.HandleShowSelect | frontend/src/pages/Booking.jsx:90-94 | records the cinema and show and moves to step 2 |
| BookingPage.BookingFlow.HandleSeatsSelected | frontend/src/pages/Booking.jsx:96-98 | the page's selection becomes the one the seat grid reports |
| BookingPage.BookingFlow.HandleBooking | frontend/src/pages/Booking.jsx:100-114 | an empty selection sets "Please select at least one seat" and sends nothing; otherwise the error is cleared and the selected show and seats are sent, with at least one seat |
| BookingPage.BookingFlow.BookingFailed | frontend/src/pages/Booking.jsx:124-125 | the page's error becomes the shown message of the response: the server's detail string, or the generic message when there is none |
| BookingPage.BookingFlow.ResetAfterSuccess | frontend/src/pages/Booking.jsx:116-123 | after a confirmed booking the page is back at step 1 with no movie, cinema, show or seats |
| BookingPage.ShownError | frontend/src/pages/Booking.jsx:125 | the logical or of the detail and 'Booking failed. Please try again.': a non-empty detail string, otherwise the generic message |
| BookingPage.FailureDetailShown | frontend/src/pages/Booking.jsx:125 | a failure has a detail string exactly when its status is neither 422 nor 500; that string is non-empty and is what the page shows; a 422 or 500 is modelled as the generic message (a non-string detail is taken as absent, see Left out) |
| BookingPage.RefusalShown | frontend/src/pages/Booking.jsx:124-125 | a booking of 1 to 6 seats that the service refuses shows the service's own reason; a request of any other size is refused by the schema (422), which is modelled as the generic message (a non-string detail is taken as absent, see Left out) |
| AdminLayout.SeatLabel | frontend/src/pages/Admin.jsx:599-600 | the label drawn on the i-th of the 80 seats; its shape is stated by SeatLabelShape |
| AdminLayout.ParseSeatLabel | frontend/src/pages/Admin.jsx:600 | reads a label back as the seat index it names, the inverse through which the labels are proved distinct |
| AdminLayout.SeatLabelShape | frontend/src/pages/Admin.jsx:599-600 | label i is the letter with code 65 + i / 10, from A to H, followed by the numeral of i % 10 + 1, from 1 to 10 |
| AdminLayout.SeatLabelRoundTrip | frontend/src/pages/Admin.jsx:600 | each label reads back as the index it was drawn for |
| AdminLayout.SeatLabelsDistinct | frontend/src/pages/Admin.jsx:599-600 | the 80 labels are pairwise distinct |
| AdminLayout.SeatBookedExactly | frontend/src/pages/Admin.jsx:545-547 | a seat is drawn booked exactly when some feed entry names its label, and the entry shown is the first one in feed order |
| AdminLayout.EntryOnOneSeat | frontend/src/pages/Admin.jsx:601-602 | a feed entry marks at most one seat of the layout |
| AdminLayout.GetSeatBooking | frontend/src/pages/Admin.jsx:545-547 | the first feed entry that names the seat's label, if any |
| AdminLayout.StrictEquals | frontend/src/pages/Admin.jsx:535 | JavaScript `===` on the two kinds of value involved: true only for two numbers or two strings that are equal, never for a number and a string |
| AdminLayout.DetailsOf | frontend/src/pages/Admin.jsx:538-542 | the found show with the first movie of its movie id, the first screen of its screen id, and the first cinema of that screen's cinema id, each None when absent |
| AdminLayout.GetShowDetailsAsWritten | frontend/src/pages/Admin.jsx:534-543 | the details lookup as written, matching shows by `===` between the show id and the selected value |
| AdminLayout.GetShowDetails | frontend/src/pages/Admin.jsx:534-543 | the corrected lookup, matching the show whose rendered id equals the selected value |
| AdminLayout.SelectedShowNeverFound | frontend/src/pages/Admin.jsx:534-536 | as written, the lookup with the drop-down's string value never finds a show, so the block gated on it at line 574 (details, seat layout, legend and booking list) is never drawn |
| AdminLayout.GetShowDetailsFinds | frontend/src/pages/Admin.jsx:534-543 | the corrected lookup, given a show's option value, finds the first show with that id and its movie, screen and cinema, and gives None when no show has the id |
| AdminLayout.ShowDetailsCounterexample | frontend/src/pages/Admin.jsx:557 | with one show of id 1 and the selected value "1", the written lookup gives None and the corrected one gives the show |

## Left out

- Authentication: JWT decoding and password hashing, in `services/auth_service.py` and `app/core/security.py`. The caller is an explicit user id plus an administrator flag. Login (`authenticate_user`) is not part of this model.
- Configuration and database setup (`core/config.py`, `app/core/database.py`, `main.py`). These are environment plumbing.
- HTTP routing. Only the router guards are modelled: the admin check, the 404 on a missing id, and the caller's id for bookings.
- The show-bookings endpoint (`app/routers/shows.py:51-65`). It reads a `seat` attribute that bookings do not have, so its output has no faithful shape. The admin layout takes its feed as an abstract list of (seat label, user) entries instead.
- The seeding script `app/seed.py`. It runs once and passes a field the Movie record does not declare.
- The list_* functions of the four catalog services. They return every row in the database's own order, which is unspecified. In the model the tables themselves are the listing.
- Concurrency and transactions. Operations are sequential. The check-then-insert race of booking creation is not modelled.
- Timestamps. `created_at` is a parameter of CreateBooking. `updated_at` is not modelled, and show start times are plain integers.
- Store.Database.FreshId: ids come from one counter shared by all tables. Ids and foreign-key values are not bounded to 32 bits. The database's per-table sequences are not modelled; only freshness matters.
- Store.Database.CreateScreen: a constraint violation is reported as a rolled-back IntegrityViolation (a 500), a value too wide for its column as DataRejected (also a 500). The exact database error text is not modelled. The same holds for UpdateScreen, CreateShow and UpdateShow.
- `_to_tuple` is the identity on the model's seats. Seats are already pairs of integers, so its `int()` coercion of request values is not modelled.
- The request schemas' type coercion, and email format checking (`EmailStr`).
- PostgreSQL's silent truncation of excess trailing spaces in a `String(n)` column: the model refuses any value longer than n characters.
- Decimal.ParseDecimal: models `Number(s)` only on strings of digits. Signs, spaces, exponents and hexadecimal are not modelled; the drop-down values are always numerals of ids.
- Decimal.DecimalString: the exponent notation JavaScript uses from 10^21 on is not modelled.
- BookingPage.BookingFlow.BookingFailed: a non-string detail, such as the validation error list of a 422, is taken as absent. The page would store the list itself.
- Rendering, styling, loading and success banners, alerts other than the seat cap, timers, and the fetches of movies, cinemas and shows. The pages `Home.jsx`, `Navbar.jsx`, `MovieCard.jsx`, `Signup.jsx`, `MyBookings.jsx` and `App.jsx` are pure UI.
- Date formatting with `toLocaleString`.

## Findings

| source | as written | input that shows it | evidently intended | confidence | as-written member | corrected member |
|---|---|---|---|---|---|---|
| frontend/src/pages/Admin.jsx:535 | `shows.find(s => s.id === showId)` compares the numeric show id, with `===`, to the drop-down's value, which is a string (line 557) | shows `[{id: 1, ...}]`, the option of show 1 chosen, so `showId` is `"1"` | the details of show 1 are shown, and below them the seat layout, its legend and the booking list, which line 574 gates on the same lookup and which are never drawn as written | not executed | AdminLayout.SelectedShowNeverFound | AdminLayout.GetShowDetailsFinds |
