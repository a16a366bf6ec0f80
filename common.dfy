/** Shared result types and the error conditions the booking API reports. */
module Common {

  datatype Option<T> = None | Some(value: T)

  /** The entity kinds whose absence the API reports as "<Kind> not found". */
  datatype Entity = CinemaEntity | ScreenEntity | MovieEntity | ShowEntity | BookingEntity

  /** Every way a request to the core can fail. */
  datatype Failure =
    | Unprocessable        // request body rejected by its schema (422)
    | SeatOutOfRange       // 400 "Seat out of range"
    | DuplicateSeats       // 400 "Duplicate seats not allowed"
    | EmailTaken           // 400 "Email already registered"
    | AdminRequired        // 403 "Admin privileges required"
    | NotFound(kind: Entity)
    | SeatsTaken           // 409 "Some seats already booked"
    | IntegrityViolation   // a foreign-key or unique constraint refused the commit (500)
    | DataRejected         // a value does not fit its column's type or width; the commit fails (500)

  datatype Result<T> = Ok(value: T) | Err(error: Failure)

  function EntityName(e: Entity): string
  {
    match e
    case CinemaEntity => "Cinema"
    case ScreenEntity => "Screen"
    case MovieEntity => "Movie"
    case ShowEntity => "Show"
    case BookingEntity => "Booking"
  }

  /** The HTTP status the API answers a failure with. */
  function Status(f: Failure): (code: int)
    ensures 400 <= code < 600
    ensures code == 404 <==> f.NotFound?
  {
    match f
    case Unprocessable => 422
    case SeatOutOfRange => 400
    case DuplicateSeats => 400
    case EmailTaken => 400
    case AdminRequired => 403
    case NotFound(_) => 404
    case SeatsTaken => 409
    case IntegrityViolation => 500
    case DataRejected => 500
  }

  /**
   * The `detail` string of a failure's JSON body. A schema rejection (422)
   * carries a list of errors instead, and an unhandled database error (500)
   * answers with a plain-text body: neither has a string detail.
   */
  function Detail(f: Failure): Option<string>
  {
    match f
    case Unprocessable => None
    case SeatOutOfRange => Some("Seat out of range")
    case DuplicateSeats => Some("Duplicate seats not allowed")
    case EmailTaken => Some("Email already registered")
    case AdminRequired => Some("Admin privileges required")
    case NotFound(k) => Some(EntityName(k) + " not found")
    case SeatsTaken => Some("Some seats already booked")
    case IntegrityViolation => None
    case DataRejected => None
  }
}
