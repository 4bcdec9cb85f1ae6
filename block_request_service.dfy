/** The block-request workflow: a user asks for a card to be blocked, an administrator
    approves (which blocks the card) or rejects. Each request goes PENDING -> APPROVED or
    PENDING -> REJECTED, once. */
module BlockRequests {
  import opened Domain
  import opened Store
  import Cards

  /** How the request store may change between two moments: no request disappears, and an
      existing request is either unchanged or was pending and has only had its status set.
      A decided request therefore never changes again. */
  ghost predicate Evolves(before: map<int, BlockRequest>, after: map<int, BlockRequest>) {
    && before.Keys <= after.Keys
    && forall k :: k in before ==>
         || after[k] == before[k]
         || (before[k].status == Pending && after[k] == before[k].(status := after[k].status))
  }

  /** APPROVED and REJECTED are terminal. */
  lemma DecidedRequestsAreFinal(before: map<int, BlockRequest>, after: map<int, BlockRequest>, k: int)
    requires Evolves(before, after) && k in before && before[k].status != Pending
    ensures k in after && after[k] == before[k]
  {
  }

  lemma EvolvesTransitive(a: map<int, BlockRequest>, b: map<int, BlockRequest>, c: map<int, BlockRequest>)
    requires Evolves(a, b) && Evolves(b, c)
    ensures Evolves(a, c)
  {
    forall k | k in a
      ensures || c[k] == a[k]
              || (a[k].status == Pending && c[k] == a[k].(status := c[k].status))
    {
      assert k in b;
    }
  }

  /** Along any history of request stores in which each step is one of the workflow's
      operations, the first and last stores are related the same way: a request decided at
      any point stays as it was decided. */
  lemma {:induction false} EvolvesAlongHistory(h: seq<map<int, BlockRequest>>)
    requires |h| > 0
    requires forall i :: 0 <= i < |h| - 1 ==> Evolves(h[i], h[i + 1])
    ensures Evolves(h[0], h[|h| - 1])
    decreases |h|
  {
    if |h| == 1 {
      assert h[0] == h[|h| - 1];
    } else {
      var prefix := h[..|h| - 1];
      EvolvesAlongHistory(prefix);
      EvolvesTransitive(h[0], h[|h| - 2], h[|h| - 1]);
    }
  }

  /** The block-request service over the shared database. */
  class BlockRequestService {
    const db: Database

    constructor (db: Database)
      ensures this.db == db
    {
      this.db := db;
    }

    /** createRequest: opens a pending request for an existing active card; the card itself
        is not touched, and other pending requests for the same card are not looked at. */
    method CreateRequest(cardId: int) returns (r: Result<BlockRequest>)
      requires db.Valid()
      modifies db`requests, db`nextRequestId
      ensures db.Valid()
      ensures Evolves(old(db.requests), db.requests)
      ensures cardId !in db.cards ==>
                r == Err(CardNotFound) && db.requests == old(db.requests)
                && db.nextRequestId == old(db.nextRequestId)
      ensures cardId in db.cards && db.cards[cardId].status == Blocked ==>
                r == Err(CardAlreadyBlocked) && db.requests == old(db.requests)
                && db.nextRequestId == old(db.nextRequestId)
      ensures cardId in db.cards && db.cards[cardId].status == Active ==>
                && r.Ok? && r.value.id !in old(db.requests)
                && r.value == BlockRequest(r.value.id, cardId, Pending)
                && db.requests == old(db.requests)[r.value.id := r.value]
    {
      if cardId !in db.cards {
        return Err(CardNotFound);
      }
      var card := db.cards[cardId];
      if card.status == Blocked {
        return Err(CardAlreadyBlocked);
      }
      var request := BlockRequest(db.nextRequestId, cardId, Pending);
      db.requests := db.requests[request.id := request];
      db.nextRequestId := db.nextRequestId + 1;
      return Ok(request);
    }

    /** approveRequest: a pending request becomes approved and its card blocked, even when
        the card was already blocked; anything else fails and changes nothing. */
    method ApproveRequest(requestId: int) returns (r: Result<BlockRequest>)
      requires db.Valid()
      modifies db`requests, db`cards
      ensures db.Valid()
      ensures Evolves(old(db.requests), db.requests)
      ensures requestId !in old(db.requests) ==>
                r == Err(RequestNotFound) && db.requests == old(db.requests) && db.cards == old(db.cards)
      ensures requestId in old(db.requests) && old(db.requests)[requestId].status != Pending ==>
                r == Err(RequestAlreadyProcessed) && db.requests == old(db.requests)
                && db.cards == old(db.cards)
      ensures requestId in old(db.requests) && old(db.requests)[requestId].status == Pending ==>
                var request := old(db.requests)[requestId];
                && r == Ok(request.(status := Approved))
                && db.requests == old(db.requests)[requestId := request.(status := Approved)]
                && db.cards == (if request.cardId in old(db.cards)
                                then Cards.WithStatus(old(db.cards), request.cardId, Blocked)
                                else old(db.cards))
    {
      if requestId !in db.requests {
        return Err(RequestNotFound);
      }
      var request := db.requests[requestId];
      if request.status != Pending {
        return Err(RequestAlreadyProcessed);
      }
      request := request.(status := Approved);
      if request.cardId in db.cards {
        var card := db.cards[request.cardId];
        db.cards := db.cards[request.cardId := card.(status := Blocked)];
      }
      db.requests := db.requests[requestId := request];
      return Ok(request);
    }

    /** rejectRequest: a pending request becomes rejected; no card is touched. */
    method RejectRequest(requestId: int) returns (r: Result<BlockRequest>)
      requires db.Valid()
      modifies db`requests
      ensures db.Valid()
      ensures Evolves(old(db.requests), db.requests)
      ensures requestId !in old(db.requests) ==>
                r == Err(RequestNotFound) && db.requests == old(db.requests)
      ensures requestId in old(db.requests) && old(db.requests)[requestId].status != Pending ==>
                r == Err(RequestAlreadyProcessed) && db.requests == old(db.requests)
      ensures requestId in old(db.requests) && old(db.requests)[requestId].status == Pending ==>
                var request := old(db.requests)[requestId];
                && r == Ok(request.(status := Rejected))
                && db.requests == old(db.requests)[requestId := request.(status := Rejected)]
    {
      if requestId !in db.requests {
        return Err(RequestNotFound);
      }
      var request := db.requests[requestId];
      if request.status != Pending {
        return Err(RequestAlreadyProcessed);
      }
      request := request.(status := Rejected);
      db.requests := db.requests[requestId := request];
      return Ok(request);
    }

    /** getPendingRequests: exactly the requests still awaiting a decision. */
    method GetPendingRequests() returns (r: map<int, BlockRequest>)
      ensures r == RequestsWithStatus(db.requests, Pending)
      ensures forall k :: k in r ==> r[k].status == Pending
    {
      r := RequestsWithStatus(db.requests, Pending);
    }
  }
}
