/** The persistent state the services share: one keyed store per entity, the append-only
    transfer log, and the derived queries the repositories offer over them. */
module Store {
  import opened Domain

  /** The username column is unique: no two stored users share a username. */
  predicate UniqueUsernames(users: map<int, User>) {
    forall a, b :: a in users && b in users && users[a].username == users[b].username ==> a == b
  }

  /** The ledger invariant: no stored card has a negative balance. */
  predicate NonNegativeBalances(cards: map<int, Card>) {
    forall k :: k in cards ==> cards[k].balance >= 0
  }

  /** Each user is stored under its own id, which is positive and below `next`. */
  predicate UserIdsBelow(users: map<int, User>, next: int) {
    forall k :: k in users ==> users[k].id == k && 0 < k < next
  }

  /** Each card is stored under its own id, which is positive and below `next`. */
  predicate CardIdsBelow(cards: map<int, Card>, next: int) {
    forall k :: k in cards ==> cards[k].id == k && 0 < k < next
  }

  /** Each block request is stored under its own id, which is positive and below `next`. */
  predicate RequestIdsBelow(requests: map<int, BlockRequest>, next: int) {
    forall k :: k in requests ==> requests[k].id == k && 0 < k < next
  }

  /** Every logged transfer moved a positive amount. */
  predicate PositiveAmounts(transfers: seq<Transfer>) {
    forall i :: 0 <= i < |transfers| ==> transfers[i].amount > 0
  }

  /** existsByUsername */
  predicate ExistsByUsername(users: map<int, User>, username: string) {
    exists k :: k in users && users[k].username == username
  }

  /** findByUsername: the id of the one user with that username, if there is one. */
  function FindByUsername(users: map<int, User>, username: string): (r: Option<int>)
    requires UniqueUsernames(users)
    ensures r.Some? <==> ExistsByUsername(users, username)
    ensures r.Some? ==> r.value in users && users[r.value].username == username
  {
    if ExistsByUsername(users, username) then
      Some(var k :| k in users && users[k].username == username; k)
    else
      None
  }

  /** Inserting a user under a new id with a username nobody has keeps usernames unique. */
  lemma InsertFreshUsername(users: map<int, User>, id: int, u: User)
    requires UniqueUsernames(users) && id !in users && !ExistsByUsername(users, u.username)
    ensures UniqueUsernames(users[id := u])
  {
  }

  /** Some user other than `id` already has `username`. */
  predicate UsernameTakenByOther(users: map<int, User>, username: string, id: int) {
    exists k :: k in users && k != id && users[k].username == username
  }

  /** Replacing a stored user keeps usernames unique when no other user has the new one. */
  lemma ReplaceKeepsUniqueUsernames(users: map<int, User>, id: int, u: User)
    requires UniqueUsernames(users) && id in users && !UsernameTakenByOther(users, u.username, id)
    ensures UniqueUsernames(users[id := u])
  {
  }

  /** A derived repository query: the stored entries whose value satisfies `keep`, each
      listed under its own key and unchanged. */
  function Filter<V>(m: map<int, V>, keep: V -> bool): (r: map<int, V>)
    ensures forall k :: k in r <==> k in m && keep(m[k])
    ensures forall k :: k in r ==> r[k] == m[k]
  {
    map k | k in m && keep(m[k]) :: m[k]
  }

  /** findAllByOwner: the stored cards whose owner is `ownerId`. */
  function CardsOwnedBy(cards: map<int, Card>, ownerId: int): map<int, Card> {
    Filter(cards, (c: Card) => c.ownerId == ownerId)
  }

  /** findAllByStatus on cards. */
  function CardsWithStatus(cards: map<int, Card>, status: CardStatus): map<int, Card> {
    Filter(cards, (c: Card) => c.status == status)
  }

  /** findAllByExpirationDateBefore: the cards expiring strictly before `date`. */
  function CardsExpiringBefore(cards: map<int, Card>, date: Date): map<int, Card> {
    Filter(cards, (c: Card) => IsBefore(c.expirationDate, date))
  }

  /** findAllByStatus on block requests. */
  function RequestsWithStatus(requests: map<int, BlockRequest>, status: RequestStatus)
    : map<int, BlockRequest>
  {
    Filter(requests, (q: BlockRequest) => q.status == status)
  }

  /** Every card is either active or blocked: the two status queries split the store. */
  lemma StatusQueriesPartition(cards: map<int, Card>)
    ensures CardsWithStatus(cards, Active).Keys !! CardsWithStatus(cards, Blocked).Keys
    ensures CardsWithStatus(cards, Active) + CardsWithStatus(cards, Blocked) == cards
  {
    var active, blocked := CardsWithStatus(cards, Active), CardsWithStatus(cards, Blocked);
    assert (active + blocked).Keys == cards.Keys by {
      forall k | k in cards ensures k in active || k in blocked {
        if cards[k].status == Active { assert k in active; } else { assert k in blocked; }
      }
    }
  }

  /** IsBefore is a strict order: transitive. */
  lemma IsBeforeTransitive(a: Date, b: Date, c: Date)
    requires IsBefore(a, b) && IsBefore(b, c)
    ensures IsBefore(a, c)
  {
  }

  /** A later cutoff never drops a card from the expiring-before query. */
  lemma ExpiringBeforeMonotone(cards: map<int, Card>, d1: Date, d2: Date)
    requires !IsBefore(d2, d1)
    ensures CardsExpiringBefore(cards, d1).Keys <= CardsExpiringBefore(cards, d2).Keys
  {
    forall k | k in CardsExpiringBefore(cards, d1)
      ensures k in CardsExpiringBefore(cards, d2)
    {
      var e := cards[k].expirationDate;
      if !IsBefore(e, d2) {
        // e < d1 <= d2 would make e < d2
        if d1 != d2 { assert IsBefore(d1, d2); IsBeforeTransitive(e, d1, d2); }
      }
    }
  }

  /** All repositories of the application: users, cards, the transfer log and block requests,
      with the identity counters the database uses to assign new ids. */
  class Database {
    var users: map<int, User>
    var cards: map<int, Card>
    var transfers: seq<Transfer>
    var requests: map<int, BlockRequest>
    var nextUserId: int
    var nextCardId: int
    var nextRequestId: int

    /** Keys are the records' own ids, below the next id to be handed out; usernames are
        unique; no balance is negative; every logged transfer moved a positive amount. */
    ghost predicate Valid()
      reads this
    {
      && 0 < nextUserId && 0 < nextCardId && 0 < nextRequestId
      && UserIdsBelow(users, nextUserId)
      && CardIdsBelow(cards, nextCardId)
      && RequestIdsBelow(requests, nextRequestId)
      && UniqueUsernames(users)
      && NonNegativeBalances(cards)
      && PositiveAmounts(transfers)
    }

    constructor ()
      ensures Valid()
      ensures users == map[] && cards == map[] && transfers == [] && requests == map[]
      ensures nextUserId == 1 && nextCardId == 1 && nextRequestId == 1
    {
      users, cards, transfers, requests := map[], map[], [], map[];
      nextUserId, nextCardId, nextRequestId := 1, 1, 1;
    }
  }
}
