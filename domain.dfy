/** Entities of the bank-card system and the values they are built from.
    Money is held in integer cents; identifiers are the store's numeric keys. */
module Domain {

  datatype Option<T> = None | Some(value: T)

  /** The outcome of a service operation: a value, or the failure the source throws. */
  datatype Result<T> = Ok(value: T) | Err(error: Error)

  /** One constructor per distinct failure the services raise. The comment names the exception
      the source throws for it. */
  datatype Error =
    | UserNotFound             // EntityNotFoundException / RuntimeException: user not found
    | CurrentUserNotFound      // UsernameNotFoundException / RuntimeException: acting user unknown
    | CardNotFound             // EntityNotFoundException: card not found
    | FromCardNotFound         // EntityNotFoundException: source card of a transfer not found
    | ToCardNotFound           // EntityNotFoundException: destination card of a transfer not found
    | SourceCardBlocked        // IllegalStateException: the paying card is blocked
    | DestinationCardBlocked   // IllegalStateException: the receiving card is blocked
    | NotOwnCards              // IllegalArgumentException: cards belong to different owners
    | InsufficientFunds        // IllegalArgumentException: source balance below the amount
    | ForeignCards             // SecurityException: a user asked for another user's cards
    | CardAlreadyBlocked       // IllegalStateException: block request for a blocked card
    | RequestNotFound          // EntityNotFoundException: block request not found
    | RequestAlreadyProcessed  // IllegalStateException: block request no longer pending
    | CannotDeleteSelf         // RuntimeException: a user may not delete themself
    | CannotDeleteAdmin        // RuntimeException: an administrator may not be deleted
    | UsernameTaken            // RuntimeException: registration with an existing username
    | DuplicateUsername        // unique column constraint on the username rejects the save

  /** A calendar date as java.time.LocalDate holds it (proleptic Gregorian calendar). */
  datatype Date = Date(year: int, month: int, day: int)

  predicate IsLeapYear(y: int) {
    y % 4 == 0 && (y % 100 != 0 || y % 400 == 0)
  }

  function DaysInMonth(y: int, m: int): (n: int)
    requires 1 <= m <= 12
    ensures 28 <= n <= 31
  {
    if m == 2 then (if IsLeapYear(y) then 29 else 28)
    else if m == 4 || m == 6 || m == 9 || m == 11 then 30
    else 31
  }

  predicate ValidDate(d: Date) {
    1 <= d.month <= 12 && 1 <= d.day <= DaysInMonth(d.year, d.month)
  }

  /** LocalDate.isBefore: strictly earlier in calendar order. */
  predicate IsBefore(a: Date, b: Date) {
    a.year < b.year
    || (a.year == b.year && a.month < b.month)
    || (a.year == b.year && a.month == b.month && a.day < b.day)
  }

  /** LocalDate.plusYears: same month and day in the shifted year, except that a day the shifted
      month does not have (29 February in a common year) falls back to the month's last day. */
  function PlusYears(d: Date, n: int): (r: Date)
    requires ValidDate(d)
    ensures ValidDate(r)
    ensures r.year == d.year + n && r.month == d.month
    ensures r.day == d.day || (d.month == 2 && d.day == 29 && r.day == 28 && !IsLeapYear(r.year))
    ensures n > 0 ==> IsBefore(d, r)
  {
    var y := d.year + n;
    var last := DaysInMonth(y, d.month);
    Date(y, d.month, if d.day > last then last else d.day)
  }

  datatype CardStatus = Active | Blocked

  datatype Role = UserRole | AdminRole

  datatype RequestStatus = Pending | Approved | Rejected

  /** A stored card. `number` is the plain card number; the store keeps it encrypted. */
  datatype Card = Card(id: int, ownerId: int, number: string, expirationDate: Date,
                       status: CardStatus, balance: int)

  /** A completed movement of `amount` cents between two cards. */
  datatype Transfer = Transfer(fromCardId: int, toCardId: int, amount: int)

  /** A user's request that an administrator block one card. */
  datatype BlockRequest = BlockRequest(id: int, cardId: int, status: RequestStatus)

  /** A user account; `password` is the encoder's output, never the plain password. */
  datatype User = User(id: int, username: string, password: string, role: Role)
}
