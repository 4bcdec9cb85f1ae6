/** The card ledger: issuing, deleting, blocking and activating cards, transfers between one
    owner's cards, and the card listings. */
module Cards {
  import opened Domain
  import opened Store
  import CardNumbers

  /** Some key of a non-empty store. */
  ghost function AnyKey(cards: map<int, Card>): (k: int)
    requires |cards| > 0
    ensures k in cards
  {
    if forall k :: k !in cards then assert false; 0
    else var k :| k in cards; k
  }

  /** The sum of all balances in a card store. */
  ghost function TotalBalance(cards: map<int, Card>): int
    decreases |cards|
  {
    if |cards| == 0 then 0
    else cards[AnyKey(cards)].balance + TotalBalance(cards - {AnyKey(cards)})
  }

  /** The sum does not depend on which card is taken out first. */
  lemma {:induction false} TotalBalanceRemove(cards: map<int, Card>, k: int)
    requires k in cards
    ensures TotalBalance(cards) == cards[k].balance + TotalBalance(cards - {k})
    decreases |cards|
  {
    var j := AnyKey(cards);
    if j != k {
      TotalBalanceRemove(cards - {j}, k);
      TotalBalanceRemove(cards - {k}, j);
      assert cards - {j} - {k} == cards - {k} - {j};
    }
  }

  /** Replacing one card changes the sum by the difference of the two balances. */
  lemma TotalBalanceUpdate(cards: map<int, Card>, k: int, c: Card)
    requires k in cards
    ensures TotalBalance(cards[k := c]) == TotalBalance(cards) - cards[k].balance + c.balance
  {
    TotalBalanceRemove(cards[k := c], k);
    assert cards[k := c] - {k} == cards - {k};
    TotalBalanceRemove(cards, k);
  }

  /** Adding a card adds its balance to the sum. */
  lemma TotalBalanceInsert(cards: map<int, Card>, k: int, c: Card)
    requires k !in cards
    ensures TotalBalance(cards[k := c]) == TotalBalance(cards) + c.balance
  {
    TotalBalanceRemove(cards[k := c], k);
    assert cards[k := c] - {k} == cards;
  }

  /** The card `id` with its status set, every other card as it was; status changes move
      no money. */
  function WithStatus(cards: map<int, Card>, id: int, status: CardStatus): (r: map<int, Card>)
    requires id in cards
    ensures r.Keys == cards.Keys
    ensures r[id] == cards[id].(status := status)
    ensures forall k :: k in cards && k != id ==> r[k] == cards[k]
    ensures TotalBalance(r) == TotalBalance(cards)
  {
    TotalBalanceUpdate(cards, id, cards[id].(status := status));
    cards[id := cards[id].(status := status)]
  }

  /** Setting a status twice is the same as setting it once. */
  lemma WithStatusIdempotent(cards: map<int, Card>, id: int, status: CardStatus)
    requires id in cards
    ensures WithStatus(WithStatus(cards, id, status), id, status) == WithStatus(cards, id, status)
  {
  }

  /** The checks a transfer must pass, in no particular order: both cards exist and are
      active, they have the same owner, and the source covers the amount. */
  predicate TransferAllowed(cards: map<int, Card>, fromId: int, toId: int, amount: int) {
    && fromId in cards && toId in cards
    && cards[fromId].status == Active && cards[toId].status == Active
    && cards[fromId].ownerId == cards[toId].ownerId
    && cards[fromId].balance >= amount
  }

  /** The balances after a transfer: the source is debited, then the destination as it now
      stands is credited (for a self-transfer the same record both times). */
  function Moved(cards: map<int, Card>, fromId: int, toId: int, amount: int): (r: map<int, Card>)
    requires fromId in cards && toId in cards
    ensures r.Keys == cards.Keys
    ensures forall k :: k in cards ==>
              r[k] == cards[k].(balance := cards[k].balance
                                           - (if k == fromId then amount else 0)
                                           + (if k == toId then amount else 0))
  {
    var debited := cards[fromId := cards[fromId].(balance := cards[fromId].balance - amount)];
    debited[toId := debited[toId].(balance := debited[toId].balance + amount)]
  }

  /** Conservation: a transfer leaves the sum of all balances unchanged. */
  lemma MovedConservesTotal(cards: map<int, Card>, fromId: int, toId: int, amount: int)
    requires fromId in cards && toId in cards
    ensures TotalBalance(Moved(cards, fromId, toId, amount)) == TotalBalance(cards)
  {
    var debited := cards[fromId := cards[fromId].(balance := cards[fromId].balance - amount)];
    var credited := debited[toId := debited[toId].(balance := debited[toId].balance + amount)];
    assert Moved(cards, fromId, toId, amount) == credited;
    TotalBalanceUpdate(cards, fromId, debited[fromId]);
    TotalBalanceUpdate(debited, toId, credited[toId]);
  }

  /** A permitted transfer of a positive amount leaves no balance negative. */
  lemma MovedKeepsNonNegative(cards: map<int, Card>, fromId: int, toId: int, amount: int)
    requires NonNegativeBalances(cards)
    requires TransferAllowed(cards, fromId, toId, amount) && amount > 0
    ensures NonNegativeBalances(Moved(cards, fromId, toId, amount))
  {
  }

  /** A self-transfer changes no card. */
  lemma SelfTransferChangesNothing(cards: map<int, Card>, id: int, amount: int)
    requires id in cards
    ensures Moved(cards, id, id, amount) == cards
  {
  }

  /** Sending an amount back right after a transfer is permitted and restores every card. */
  lemma TransferRoundTrip(cards: map<int, Card>, a: int, b: int, amount: int)
    requires NonNegativeBalances(cards)
    requires TransferAllowed(cards, a, b, amount) && amount > 0
    ensures TransferAllowed(Moved(cards, a, b, amount), b, a, amount)
    ensures Moved(Moved(cards, a, b, amount), b, a, amount) == cards
  {
    var back := Moved(Moved(cards, a, b, amount), b, a, amount);
    assert forall k :: k in cards ==> back[k] == cards[k];
  }

  /** A transfer the service carries out on these cards: a positive amount, as the request
      layer admits, and every check passed. */
  predicate Admissible(cards: map<int, Card>, t: Transfer) {
    t.amount > 0 && TransferAllowed(cards, t.fromCardId, t.toCardId, t.amount)
  }

  /** The cards after attempting the transfers in turn: an admissible one moves money, a
      refused one changes nothing. */
  function Replay(cards: map<int, Card>, ts: seq<Transfer>): map<int, Card>
    decreases |ts|
  {
    if ts == [] then cards
    else
      var t := ts[0];
      Replay(if Admissible(cards, t) then Moved(cards, t.fromCardId, t.toCardId, t.amount)
             else cards, ts[1..])
  }

  /** Conservation over any sequence of transfer attempts, and no balance ever negative. */
  lemma {:induction false} ReplayInvariants(cards: map<int, Card>, ts: seq<Transfer>)
    requires NonNegativeBalances(cards)
    ensures Replay(cards, ts).Keys == cards.Keys
    ensures TotalBalance(Replay(cards, ts)) == TotalBalance(cards)
    ensures NonNegativeBalances(Replay(cards, ts))
    decreases |ts|
  {
    if ts != [] {
      var t := ts[0];
      if Admissible(cards, t) {
        MovedConservesTotal(cards, t.fromCardId, t.toCardId, t.amount);
        MovedKeepsNonNegative(cards, t.fromCardId, t.toCardId, t.amount);
        ReplayInvariants(Moved(cards, t.fromCardId, t.toCardId, t.amount), ts[1..]);
      } else {
        ReplayInvariants(cards, ts[1..]);
      }
    }
  }

  /** Transfers of `amount` from card `src` to distinct other cards of the same owner. */
  predicate FanOut(cards: map<int, Card>, src: int, ts: seq<Transfer>, amount: int) {
    && src in cards
    && (forall i :: 0 <= i < |ts| ==>
          && ts[i].fromCardId == src && ts[i].amount == amount
          && ts[i].toCardId in cards && ts[i].toCardId != src
          && cards[ts[i].toCardId].status == Active
          && cards[ts[i].toCardId].ownerId == cards[src].ownerId)
    && (forall i, j :: 0 <= i < j < |ts| ==> ts[i].toCardId != ts[j].toCardId)
  }

  /** N transfers of `amount` out of an active card holding exactly N times `amount`, to N
      distinct cards: all succeed, the source ends at 0, each destination is credited
      exactly once, and no other card changes. */
  lemma {:induction false} FanOutDrainsSource(cards: map<int, Card>, src: int, ts: seq<Transfer>, amount: int)
    requires FanOut(cards, src, ts, amount) && amount > 0
    requires cards[src].status == Active && cards[src].balance == |ts| * amount
    ensures var r := Replay(cards, ts);
            && r.Keys == cards.Keys
            && r[src] == cards[src].(balance := 0)
            && (forall i :: 0 <= i < |ts| ==>
                  r[ts[i].toCardId] == cards[ts[i].toCardId].(balance := cards[ts[i].toCardId].balance + amount))
            && (forall k :: k in cards && k != src && (forall i :: 0 <= i < |ts| ==> ts[i].toCardId != k)
                  ==> r[k] == cards[k])
    decreases |ts|
  {
    if ts != [] {
      var t := ts[0];
      assert |ts| * amount == (|ts| - 1) * amount + amount;
      assert (|ts| - 1) * amount >= 0;
      assert Admissible(cards, t);
      var moved := Moved(cards, src, t.toCardId, amount);
      var rest := ts[1..];
      assert FanOut(moved, src, rest, amount) by {
        forall i | 0 <= i < |rest| ensures rest[i] == ts[i + 1] { }
      }
      FanOutDrainsSource(moved, src, rest, amount);
      var r := Replay(moved, rest);
      assert r == Replay(cards, ts);
      forall i | 0 <= i < |ts|
        ensures r[ts[i].toCardId] == cards[ts[i].toCardId].(balance := cards[ts[i].toCardId].balance + amount)
      {
        if i == 0 {
          assert forall j :: 0 <= j < |rest| ==> rest[j].toCardId != t.toCardId by {
            forall j | 0 <= j < |rest| ensures rest[j].toCardId != t.toCardId {
              assert rest[j] == ts[j + 1];
            }
          }
        } else {
          assert ts[i] == rest[i - 1];
        }
      }
      forall k | k in cards && k != src && (forall i :: 0 <= i < |ts| ==> ts[i].toCardId != k)
        ensures r[k] == cards[k]
      {
        assert forall j :: 0 <= j < |rest| ==> rest[j].toCardId != k by {
          forall j | 0 <= j < |rest| ensures rest[j].toCardId != k {
            assert rest[j] == ts[j + 1];
          }
        }
      }
    }
  }

  /** The card service over the shared database. */
  class CardService {
    const db: Database

    constructor (db: Database)
      ensures this.db == db
    {
      this.db := db;
    }

    /** createCard: issues an active, empty card to an existing user, numbered from the
        random draws and expiring three years after `today`. */
    method CreateCard(userId: int, today: Date, draws: seq<int>) returns (r: Result<Card>)
      requires db.Valid() && ValidDate(today)
      requires |draws| == 15 && forall k :: 0 <= k < |draws| ==> 0 <= draws[k] <= 9
      modifies db`cards, db`nextCardId
      ensures db.Valid()
      ensures userId !in db.users ==>
                r == Err(UserNotFound) && db.cards == old(db.cards) && db.nextCardId == old(db.nextCardId)
      ensures userId in db.users ==>
                && r.Ok? && r.value.id !in old(db.cards)
                && db.cards == old(db.cards)[r.value.id := r.value]
                && r.value.ownerId == userId && r.value.status == Active && r.value.balance == 0
                && r.value.expirationDate == PlusYears(today, 3)
                && |r.value.number| == 16 && CardNumbers.LuhnValid(r.value.number)
                && (forall k :: 0 <= k < 15 ==> CardNumbers.DigitValue(r.value.number[k]) == draws[k])
      ensures TotalBalance(db.cards) == TotalBalance(old(db.cards))
    {
      if userId !in db.users {
        return Err(UserNotFound);
      }
      var number := CardNumbers.GenerateCardNumber(draws);
      var card := Card(db.nextCardId, userId, number, PlusYears(today, 3), Active, 0);
      TotalBalanceInsert(db.cards, card.id, card);
      db.cards := db.cards[card.id := card];
      db.nextCardId := db.nextCardId + 1;
      return Ok(card);
    }

    /** deleteCard: removes an existing card, and its balance with it. */
    method DeleteCard(id: int) returns (r: Result<()>)
      requires db.Valid()
      modifies db`cards
      ensures db.Valid()
      ensures id !in old(db.cards) ==> r == Err(CardNotFound) && db.cards == old(db.cards)
      ensures id in old(db.cards) ==>
                && r == Ok(()) && db.cards == old(db.cards) - {id}
                && TotalBalance(db.cards) == TotalBalance(old(db.cards)) - old(db.cards)[id].balance
    {
      if id !in db.cards {
        return Err(CardNotFound);
      }
      TotalBalanceRemove(db.cards, id);
      db.cards := db.cards - {id};
      return Ok(());
    }

    /** transfer: the checks run in a fixed order and the first that fails decides the
        error; a failed transfer changes nothing, a successful one moves the amount and logs
        exactly one record. */
    method Transfer(fromId: int, toId: int, amount: int) returns (r: Result<Transfer>)
      requires db.Valid() && amount > 0
      modifies db`cards, db`transfers
      ensures db.Valid()
      ensures fromId !in old(db.cards) ==> r == Err(FromCardNotFound)
      ensures fromId in old(db.cards) && toId !in old(db.cards) ==> r == Err(ToCardNotFound)
      ensures fromId in old(db.cards) && toId in old(db.cards) ==>
                var from, to := old(db.cards)[fromId], old(db.cards)[toId];
                && (from.status == Blocked ==> r == Err(SourceCardBlocked))
                && (from.status == Active && to.status == Blocked ==> r == Err(DestinationCardBlocked))
                && ((from.status == Active && to.status == Active && from.ownerId != to.ownerId)
                      ==> r == Err(NotOwnCards))
                && ((from.status == Active && to.status == Active && from.ownerId == to.ownerId
                       && from.balance < amount) ==> r == Err(InsufficientFunds))
      ensures r.Ok? <==> TransferAllowed(old(db.cards), fromId, toId, amount)
      ensures r.Err? ==> db.cards == old(db.cards) && db.transfers == old(db.transfers)
      ensures r.Ok? ==>
                && r.value == Domain.Transfer(fromId, toId, amount)
                && db.cards == Moved(old(db.cards), fromId, toId, amount)
                && db.transfers == old(db.transfers) + [r.value]
      ensures TotalBalance(db.cards) == TotalBalance(old(db.cards))
    {
      if fromId !in db.cards {
        return Err(FromCardNotFound);
      }
      if toId !in db.cards {
        return Err(ToCardNotFound);
      }
      var from, to := db.cards[fromId], db.cards[toId];
      if from.status == Blocked {
        return Err(SourceCardBlocked);
      }
      if to.status == Blocked {
        return Err(DestinationCardBlocked);
      }
      if from.ownerId != to.ownerId {
        return Err(NotOwnCards);
      }
      if from.balance < amount {
        return Err(InsufficientFunds);
      }
      ghost var before := db.cards;
      MovedKeepsNonNegative(before, fromId, toId, amount);
      db.cards := db.cards[fromId := from.(balance := from.balance - amount)];
      // Both lookups yield the same managed record when the ids are equal, so the credit
      // applies to the record as it stands after the debit.
      db.cards := db.cards[toId := db.cards[toId].(balance := db.cards[toId].balance + amount)];
      assert db.cards == Moved(before, fromId, toId, amount);
      assert CardIdsBelow(db.cards, db.nextCardId);
      var t := Domain.Transfer(fromId, toId, amount);
      db.transfers := db.transfers + [t];
      assert PositiveAmounts(db.transfers);
      assert TotalBalance(db.cards) == TotalBalance(before) by {
        MovedConservesTotal(before, fromId, toId, amount);
      }
      r := Ok(t);
    }

    /** blockCard: an existing card becomes blocked, whatever its status was. */
    method BlockCard(cardId: int) returns (r: Result<()>)
      requires db.Valid()
      modifies db`cards
      ensures db.Valid()
      ensures cardId !in old(db.cards) ==> r == Err(CardNotFound) && db.cards == old(db.cards)
      ensures cardId in old(db.cards) ==>
                r == Ok(()) && db.cards == WithStatus(old(db.cards), cardId, Blocked)
    {
      if cardId !in db.cards {
        return Err(CardNotFound);
      }
      var card := db.cards[cardId];
      db.cards := db.cards[cardId := card.(status := Blocked)];
      return Ok(());
    }

    /** activateCard: an existing card becomes active, whatever its status was. */
    method ActivateCard(cardId: int) returns (r: Result<()>)
      requires db.Valid()
      modifies db`cards
      ensures db.Valid()
      ensures cardId !in old(db.cards) ==> r == Err(CardNotFound) && db.cards == old(db.cards)
      ensures cardId in old(db.cards) ==>
                r == Ok(()) && db.cards == WithStatus(old(db.cards), cardId, Active)
    {
      if cardId !in db.cards {
        return Err(CardNotFound);
      }
      var card := db.cards[cardId];
      db.cards := db.cards[cardId := card.(status := Active)];
      return Ok(());
    }

    /** getUserCards: a non-administrator must be a known user asking for their own cards;
        an administrator may ask for any existing user's cards. */
    method GetUserCards(userId: int, isAdmin: bool, currentUsername: string)
      returns (r: Result<map<int, Card>>)
      requires db.Valid()
      ensures !isAdmin && !ExistsByUsername(db.users, currentUsername) ==> r == Err(CurrentUserNotFound)
      ensures !isAdmin && ExistsByUsername(db.users, currentUsername) ==>
                r == (if FindByUsername(db.users, currentUsername).value == userId
                      then Ok(CardsOwnedBy(db.cards, userId)) else Err(ForeignCards))
      ensures isAdmin ==>
                r == (if userId in db.users then Ok(CardsOwnedBy(db.cards, userId)) else Err(UserNotFound))
      ensures r.Ok? ==> forall k :: k in r.value ==> r.value[k].ownerId == userId
    {
      if !isAdmin {
        var current := FindByUsername(db.users, currentUsername);
        if current.None? {
          return Err(CurrentUserNotFound);
        }
        if current.value != userId {
          return Err(ForeignCards);
        }
        return Ok(CardsOwnedBy(db.cards, current.value));
      } else {
        if userId !in db.users {
          return Err(UserNotFound);
        }
        return Ok(CardsOwnedBy(db.cards, userId));
      }
    }

    /** getAllCards */
    method GetAllCards() returns (r: map<int, Card>)
      ensures r == db.cards
    {
      r := db.cards;
    }

    /** getCardsByStatus */
    method GetCardsByStatus(status: CardStatus) returns (r: map<int, Card>)
      ensures r == CardsWithStatus(db.cards, status)
    {
      r := CardsWithStatus(db.cards, status);
    }

    /** getCardsExpiringBefore */
    method GetCardsExpiringBefore(date: Date) returns (r: map<int, Card>)
      ensures r == CardsExpiringBefore(db.cards, date)
    {
      r := CardsExpiringBefore(db.cards, date);
    }
  }
}
