# Bank cards: a verified model of the card ledger and its user services

The system manages bank cards for registered users. It models these parts:

- **Card issuing**: a new card gets a 16-digit, Luhn-valid number, expires three years after the issue date, starts active and has a zero balance.
- **Card lifecycle**: deleting, blocking and activating cards.
- **Transfers**: money moves only between two active cards of the same owner. Six checks run in a fixed order, and a failed transfer changes nothing.
- **Card listings**: all cards, by owner, by status and by expiry date. A non-administrator may only list their own cards.
- **Card presentation**: the card view shows `**** **** **** ` followed by the last four digits.
- **Block requests**: a user asks for a card to be blocked. An administrator approves the request, which blocks the card, or rejects it.
- **User directory**: creating, listing, reading, partially updating and deleting users, plus self-registration and administrator creation under a unique username.

## Layout

| file | module | contents |
|---|---|---|
| `domain.dfy` | `Domain` | entities (`Card`, `Transfer`, `BlockRequest`, `User`), statuses, roles, calendar dates, the `Error` kinds, `Option`/`Result` |
| `store.dfy` | `Store` | store invariants, the repository queries as functions over maps, and the class `Database` holding every repository plus its identity counters |
| `card_numbers.dfy` | `CardNumbers` | Luhn sum and check digit as functions; the generator and check-digit loops as methods |
| `card_response.dfy` | `CardResponses` | number masking and the card view |
| `card_service.dfy` | `Cards` | total balance, status updates, transfers and their replay; the class `CardService` |
| `block_request_service.dfy` | `BlockRequests` | request-store evolution and the class `BlockRequestService` |
| `user_service.dfy` | `Users` | user views, partial updates, the ordered listing, and the class `UserService` |
| `auth_service.dfy` | `Auth` | registration and the class `AuthService` |

**Services and state.** Each service is a class holding a reference to one shared `Database`. The source mutates entities in place and saves them; here each service method reassigns the maps of the database. Its `modifies` clause names only the fields it touches (for example `db`cards, db`transfers` for a transfer). Each method states the new state in terms of the old one and keeps `Database.Valid()`, which bundles:

- every record is stored under its own id, below the next id to be handed out;
- usernames are unique;
- no balance is negative;
- every logged transfer moved a positive amount.

**Values.**
- Money is an integer number of cents.
- A null number passed to the masking function is `None`.
- The password encoder is a function-valued parameter of the services.
- The random source of the card-number generator is the sequence of 15 digits it would draw.
- The current date is a parameter of card creation.

## Model

| member | source | states |
|---|---|---|
| `Domain.PlusYears` | src/main/java/com/example/bankcards/service/CardService.java:41 | the expiry date is a valid date in the shifted year and same month, with the same day except that 29 February clamps to 28 in a common year, and it lies strictly after the issue date |
| `Store.FindByUsername` | src/main/java/com/example/bankcards/service/UserService.java:60-61 | finds a user iff one with that name exists, and the user found has that name |
| `Store.InsertFreshUsername` | src/main/java/com/example/bankcards/service/AuthService.java:22-31 | adding a user whose name nobody has keeps usernames unique |
| `Store.ReplaceKeepsUniqueUsernames` | src/main/java/com/example/bankcards/service/UserService.java:51-55 | replacing a user keeps usernames unique when no other user has the new name |
| `Store.Filter` | src/main/java/com/example/bankcards/repository/CardRepository.java:14-16 | the derived queries by owner, by status and by expiry before a date (and the request query by status) list an entry iff it is stored and its value satisfies the query's condition, and list it unchanged under its own key |
| `Store.StatusQueriesPartition` | src/main/java/com/example/bankcards/service/CardService.java:127-129 | the active and blocked listings are disjoint, and together they are the whole card store |
| `Store.IsBeforeTransitive` | src/main/java/com/example/bankcards/repository/CardRepository.java:16 | the date order used by the expiry query is transitive |
| `Store.ExpiringBeforeMonotone` | src/main/java/com/example/bankcards/service/CardService.java:131-133 | a later cutoff date never drops a card from the expiring-before listing |
| `CardNumbers.LuhnSumAppend` | src/main/java/com/example/bankcards/service/CardService.java:149-164 | appending a digit shifts doubling by one position: the full number's sum is the payload's sum (last digit doubled) plus the new digit |
| `CardNumbers.CheckDigitFor` | src/main/java/com/example/bankcards/service/CardService.java:163 | the check digit is in 0..9 and makes payload plus digit Luhn-valid |
| `CardNumbers.CheckDigitUnique` | src/main/java/com/example/bankcards/service/CardService.java:143-144 | payload plus digit d is Luhn-valid iff d is the check digit |
| `CardNumbers.CalculateLuhnCheckDigit` | src/main/java/com/example/bankcards/service/CardService.java:149-164 | the right-to-left loop (with the source's n % 10 + 1 reduction) returns the check digit, so the payload with it appended is Luhn-valid |
| `CardNumbers.GenerateCardNumber` | src/main/java/com/example/bankcards/service/CardService.java:135-147 | the number has 16 decimal digits, the first 15 are the drawn digits in order, the last is their check digit, and the whole number is Luhn-valid |
| `CardResponses.MaskCardNumber` | src/main/java/com/example/bankcards/dto/CardResponse.java:30-35 | a null number or one shorter than 4 characters becomes `****`; any other becomes the 15-character mask prefix followed by its last four characters (19 characters) |
| `CardResponses.MaskRevealsOnlyLastFour` | src/main/java/com/example/bankcards/dto/CardResponse.java:30-35 | numbers with equal last four characters mask identically, and all numbers shorter than four mask identically |
| `CardResponses.MaskedCharacters` | src/main/java/com/example/bankcards/dto/CardResponse.java:34 | every character of a mask is `*`, a space, or the matching one of the number's last four characters |
| `CardResponses.From` | src/main/java/com/example/bankcards/dto/CardResponse.java:20-27 | the view copies id, expiry date, status and balance, and holds the number only masked |
| `CardResponses.FromHidesLeadingDigits` | src/main/java/com/example/bankcards/dto/CardResponse.java:20-35 | two cards that differ only in the leading characters of their numbers have identical views |
| `CardResponses.MaskExamples` | src/main/java/com/example/bankcards/dto/CardResponse.java:30-35 | a 16-digit number, a three-character number and a null number mask as the code prescribes |
| `Cards.TotalBalanceRemove` | src/main/java/com/example/bankcards/service/CardService.java:49-54 | removing a card removes exactly its balance from the total, whichever card the sum takes first |
| `Cards.TotalBalanceUpdate` | src/main/java/com/example/bankcards/service/CardService.java:78-79 | replacing one card changes the total by the difference of the two balances |
| `Cards.TotalBalanceInsert` | src/main/java/com/example/bankcards/service/CardService.java:38-45 | adding a card adds its balance to the total |
| `Cards.WithStatus` | src/main/java/com/example/bankcards/service/CardService.java:93-104 | only the named card changes, only in its status, and the total balance is unchanged |
| `Cards.WithStatusIdempotent` | src/main/java/com/example/bankcards/service/CardService.java:93-104 | blocking (or activating) twice is the same as once |
| `Cards.Moved` | src/main/java/com/example/bankcards/service/CardService.java:78-79 | the source loses the amount, the destination gains it (both for a self-transfer), and every other card and every key stays |
| `Cards.MovedConservesTotal` | src/main/java/com/example/bankcards/service/CardService.java:78-79 | a transfer leaves the sum of all balances unchanged |
| `Cards.MovedKeepsNonNegative` | src/main/java/com/example/bankcards/service/CardService.java:74-79 | after the funds check passes, no balance goes negative |
| `Cards.SelfTransferChangesNothing` | src/main/java/com/example/bankcards/service/CardService.java:58-79 | a transfer from a card to itself leaves every card as it was |
| `Cards.TransferRoundTrip` | src/main/java/com/example/bankcards/service/CardService.java:57-90 | a permitted transfer may be sent straight back, and doing so restores every card |
| `Cards.ReplayInvariants` | src/main/java/com/example/bankcards/service/CardService.java:57-90 | over any sequence of transfer attempts, the cards stay the same, the total is conserved and no balance becomes negative |
| `Cards.FanOutDrainsSource` | src/main/java/com/example/bankcards/service/CardService.java:57-90 | N transfers of x from a card holding N·x to N distinct active cards of the same owner all succeed: the source ends at 0, each destination gains x once, and no other card changes |
| `Cards.CardService.CreateCard` | src/main/java/com/example/bankcards/service/CardService.java:34-46 | an unknown user fails with nothing stored; otherwise one new card under a fresh id: the user's, active, balance 0, expiring three years on, with a 16-digit Luhn-valid number from the draws; the total balance is unchanged |
| `Cards.CardService.DeleteCard` | src/main/java/com/example/bankcards/service/CardService.java:49-54 | an unknown card fails; otherwise exactly that card is removed, and the total drops by its balance |
| `Cards.CardService.Transfer` | src/main/java/com/example/bankcards/service/CardService.java:57-90 | the first failing check decides the error, in source order (source missing, destination missing, source blocked, destination blocked, different owners, insufficient funds); it succeeds iff every check passes; failure changes nothing; success moves the amount as `Cards.Moved` says, appends one log record, conserves the total and keeps the store invariant |
| `Cards.CardService.BlockCard` | src/main/java/com/example/bankcards/service/CardService.java:93-97 | an unknown card fails with nothing changed; otherwise that card becomes blocked and nothing else changes |
| `Cards.CardService.ActivateCard` | src/main/java/com/example/bankcards/service/CardService.java:100-104 | an unknown card fails with nothing changed; otherwise that card becomes active and nothing else changes |
| `Cards.CardService.GetUserCards` | src/main/java/com/example/bankcards/service/CardService.java:106-121 | a non-administrator must be a known user (else the current-user error) asking for their own id (else the foreign-cards error); an administrator needs an existing user id; the result holds exactly that user's cards |
| `Cards.CardService.GetAllCards` | src/main/java/com/example/bankcards/service/CardService.java:123-125 | every stored card, unchanged |
| `Cards.CardService.GetCardsByStatus` | src/main/java/com/example/bankcards/service/CardService.java:127-129 | exactly the cards with the status |
| `Cards.CardService.GetCardsExpiringBefore` | src/main/java/com/example/bankcards/service/CardService.java:131-133 | exactly the cards expiring strictly before the date |
| `BlockRequests.DecidedRequestsAreFinal` | src/main/java/com/example/bankcards/service/BlockRequestService.java:46-48 | under the workflow's evolution an approved or rejected request never changes again |
| `BlockRequests.EvolvesTransitive` | src/main/java/com/example/bankcards/service/BlockRequestService.java:42-69 | two evolution steps compose into one |
| `BlockRequests.EvolvesAlongHistory` | src/main/java/com/example/bankcards/service/BlockRequestService.java:25-69 | along any history of workflow steps, each request is at most decided once, keeping its id and card |
| `BlockRequests.BlockRequestService.CreateRequest` | src/main/java/com/example/bankcards/service/BlockRequestService.java:26-39 | an unknown card or an already blocked card fails with nothing stored; otherwise one pending request for the card under a fresh id |
| `BlockRequests.BlockRequestService.ApproveRequest` | src/main/java/com/example/bankcards/service/BlockRequestService.java:42-56 | an unknown request or one no longer pending fails with nothing changed; otherwise the request becomes approved and its card blocked, with nothing else changed |
| `BlockRequests.BlockRequestService.RejectRequest` | src/main/java/com/example/bankcards/service/BlockRequestService.java:59-69 | an unknown request or one no longer pending fails with nothing changed; otherwise the request becomes rejected and no card is touched |
| `BlockRequests.BlockRequestService.GetPendingRequests` | src/main/java/com/example/bankcards/service/BlockRequestService.java:71-73 | exactly the pending requests |
| `Users.ToResponse` | src/main/java/com/example/bankcards/dto/UserResponse.java:19-25 | the view carries the user's id, username and role |
| `Users.ToResponseHidesPassword` | src/main/java/com/example/bankcards/dto/UserResponse.java:19-25 | the view does not depend on the password |
| `Users.ApplyUpdate` | src/main/java/com/example/bankcards/service/UserService.java:51-53 | each non-null field of the update replaces the stored one, the password stored encoded; null fields and the id are kept |
| `Users.EmptyUpdateIsIdentity` | src/main/java/com/example/bankcards/service/UserService.java:51-53 | an update with every field null changes nothing |
| `Users.ApplyUpdateIdempotent` | src/main/java/com/example/bankcards/service/UserService.java:51-53 | with one fixed encoder, applying the same update twice equals applying it once; with a different second encoding, the id, username and role still agree, and the whole user agrees when no password is sent |
| `Users.ResponsesInRange` | src/main/java/com/example/bankcards/service/UserService.java:34-39 | the listing of an id range is no longer than the range |
| `Users.ResponsesInRangeSound` | src/main/java/com/example/bankcards/service/UserService.java:34-39 | every listed view is a stored user's, with an id in the range, in strictly ascending id order |
| `Users.ResponsesInRangeComplete` | src/main/java/com/example/bankcards/service/UserService.java:34-39 | every stored user with an id in the range is listed |
| `Users.UserService.CreateUser` | src/main/java/com/example/bankcards/service/UserService.java:25-32 | a taken username fails at the unique column with nothing stored; otherwise one new user under a fresh id with the requested name and role and the encoded password, and the view echoes id, name and role |
| `Users.UserService.GetAllUsers` | src/main/java/com/example/bankcards/service/UserService.java:34-39 | one view per stored user, each user exactly once, in ascending id order |
| `Users.UserService.GetUser` | src/main/java/com/example/bankcards/service/UserService.java:41-45 | an unknown id fails; otherwise the view of that user |
| `Users.UserService.UpdateUser` | src/main/java/com/example/bankcards/service/UserService.java:47-57 | an unknown id fails, and so does a new username another user has; both leave the store unchanged; otherwise only that user is replaced, by the partial update of `Users.ApplyUpdate` |
| `Users.UserService.DeleteUser` | src/main/java/com/example/bankcards/service/UserService.java:59-75 | checked in order: the current user must exist, the target must exist, they must differ, and the target must not be an administrator; any failure deletes nothing; otherwise exactly the target is removed |
| `Auth.RegisteredNameIsTaken` | src/main/java/com/example/bankcards/service/AuthService.java:21-45 | after a registration the name exists, so a second registration with it is refused; every earlier user is unchanged; the store has grown by one |
| `Auth.AuthService.RegisterUser` | src/main/java/com/example/bankcards/service/AuthService.java:21-32 | a taken username fails with nothing stored; otherwise exactly one new user, with the name, the encoded password and role USER; usernames stay unique |
| `Auth.AuthService.CreateAdminUser` | src/main/java/com/example/bankcards/service/AuthService.java:34-45 | the same guard and insertion with role ADMIN |

## Left out

- The card number is held in plain. Its AES encryption at rest (the number converter and its properties) is a storage detail none of the modelled operations observes.
- Out of scope: controllers, security annotations, JWT handling and the security context. The caller's role and username are parameters of `GetUserCards` and `DeleteUser`.
- Pagination is left out: the card listings return the whole matching map. The order of rows from the database is also left out.
- `Users.UserService.GetAllUsers`: the ascending id order of the listing is the model's choice. The repository's `findAll` promises no order; the model fixes one so that the listing is a definite sequence.
- The transfer view is not modelled. It carries both full card numbers unmasked (src/main/java/com/example/bankcards/dto/TransferResponse.java:23-24), and the transfer endpoint returns it; only the card view masks the number.
- Transactions, concurrency and locking are left out. Each method is one atomic step on the database.
- The Transfer and BlockRequest entities' creation timestamps are not modelled, nor is the transfer log's own id. The logged transfer records only its two card ids and the amount.
- The cards of a deleted user are not modelled. The ORM removes them by cascade, but the service code does not show this. Here they stay in the card store with a dangling owner id.
- Card deletion is not checked against block requests that reference the card (a foreign-key constraint of the database). `ApproveRequest` on a request whose card no longer exists approves it and blocks nothing.
- Card deletion is not checked against logged transfers either. Each logged transfer references its two cards (src/main/java/com/example/bankcards/service/CardService.java:82-83). After `Cards.CardService.DeleteCard`, a logged transfer may hold the id of a card that no longer exists.
- BCrypt salting is left out: the encoder is a deterministic function.
- `Users.ApplyUpdateIdempotent`: full idempotence rests on the deterministic encoder. With a salting encoder, a second password update stores a fresh hash of the same password. For that case the lemma promises only that the id, username and role agree, and that the whole user agrees when no password is sent.
- The username and password length limits of the request objects are not modelled (they are framework validation). So is the limit of 12 integer digits of a transfer amount. Only a positive amount is a precondition of `Transfer`.
- `CardNumbers.CalculateLuhnCheckDigit` does not model Java `int` overflow of the running sum. It cannot happen for the 15-digit payloads the generator builds.
- `CardNumbers.CalculateLuhnCheckDigit` requires ASCII decimal digits. The source's `Integer.parseInt` also accepts other Unicode digits and throws on anything else, but the generator only ever passes ASCII digits.
- `Domain.PlusYears` covers any integer year. The year range of `LocalDate` and its overflow exception are not modelled.
- Usernames are unique, as the unique `username` column of src/main/java/com/example/bankcards/entity/User.java:15 requires. `UserService` itself does not check. A save that would violate the column is modelled as the `DuplicateUsername` error with nothing stored.
- Owner equality in a transfer compares the owners' ids. The user entity has no equality override, and each id is one managed entity.
- `Error` has one constructor per failure condition of the services. The Java exception class is not kept: the same condition may be raised with different classes in different services.
