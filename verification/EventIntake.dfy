/**
  The two ways event data comes in: a client's submission and a peer's answer to a backfill request. Both check
  the data against the chain, store it, and clear the missing-event marker.
 */
module EventIntake {
  import opened Prelude
  import opened MissingEventCodec

  type EventId = seq<byte>
  type TxHash = seq<byte>
  type Principal = string
  type Data = seq<byte>
  type Hash = seq<byte>

  /** What the chain records about an event. */
  datatype ChainEvent = ChainEvent(eventId: EventId, principal: Principal, offChainHash: Hash)

  datatype StoredEvent = StoredEvent(event: ChainEvent, data: Data, txHash: TxHash)

  /** A submission; signatures that are not hexadecimal are None. */
  datatype SubmitRequest = SubmitRequest(
    principal: Principal, eventId: EventId, txHash: TxHash, data: Data, signature: Option<seq<byte>>)

  datatype BackfillData = BackfillData(eventId: EventId, txHash: TxHash, data: Data)

  datatype Crypto = Crypto(hash: Data -> Hash, verify: (seq<byte>, Hash, seq<byte>) -> bool)

  /** An answer of the blockchain client. */
  datatype Lookup<T> = Found(value: T) | NotFound | Failed

  datatype Code = Accepted | BadRequest | Unauthorized | Forbidden | Missing | InternalError

  type Repository = map<EventId, StoredEvent>
  type Markers = map<EventId, MissingEvent>

  // ---------- What must hold of accepted data ----------

  /** The data is what the chain promised for this event, under this transaction. */
  ghost predicate Matches(c: Crypto, chain: map<TxHash, ChainEvent>, id: EventId, s: StoredEvent) {
    s.txHash in chain && chain[s.txHash] == s.event && s.event.eventId == id && c.hash(s.data) == s.event.offChainHash
  }

  /** A submission is accepted when its author signed it and the chain agrees on everything. */
  ghost predicate Genuine(c: Crypto, req: SubmitRequest, key: Lookup<seq<byte>>, event: Lookup<ChainEvent>) {
    key.Found? && req.signature.Some? && c.verify(key.value, c.hash(req.data), req.signature.value) &&
    event.Found? && event.value.eventId == req.eventId && event.value.principal == req.principal &&
    event.value.offChainHash == c.hash(req.data)
  }

  /** The signature is that of the principal's key. */
  ghost predicate Verified(c: Crypto, req: SubmitRequest, key: Lookup<seq<byte>>) {
    key.Found? && req.signature.Some? && c.verify(key.value, c.hash(req.data), req.signature.value)
  }

  ghost predicate GenuineAnswer(c: Crypto, msg: BackfillData, event: Lookup<ChainEvent>) {
    event.Found? && event.value.offChainHash == c.hash(msg.data) && event.value.eventId == msg.eventId
  }

  class Node {
    const crypto: Crypto
    var repo: Repository
    var markers: Markers

    constructor (crypto: Crypto)
      ensures this.crypto == crypto && repo == map[] && markers == map[]
    {
      this.crypto := crypto;
      repo, markers := map[], map[];
    }

    /**
      `key` and `event` are what the blockchain client answers for the request's principal and transaction;
      the repository and the state store may fail. A marker that cannot be cleared is left to the harmoniser.
     */
    method StoreEvent(req: SubmitRequest, key: Lookup<seq<byte>>, event: Lookup<ChainEvent>, storeFails: bool, clearFails: bool)
      returns (code: Code)
      modifies this
      ensures code.Accepted? <==> Genuine(crypto, req, key, event) && !storeFails
      ensures code.Accepted? ==>
        repo == (if req.eventId in old(repo) then old(repo)
                 else old(repo)[req.eventId := StoredEvent(event.value, req.data, req.txHash)]) &&
        markers == if clearFails then old(markers) else old(markers) - {req.eventId}
      ensures !code.Accepted? ==> repo == old(repo) && markers == old(markers)
      ensures code.Unauthorized? <==> key.NotFound?
      ensures code.Forbidden? <==>
              key.Found? && req.signature.Some? &&
              (!Verified(crypto, req, key) ||
               (event.Found? && event.value.eventId == req.eventId && event.value.principal != req.principal))
      ensures code.Missing? <==> Verified(crypto, req, key) && event.NotFound?
      ensures code.InternalError? <==>
              key.Failed? || (Verified(crypto, req, key) && event.Failed?) || (Genuine(crypto, req, key, event) && storeFails)
    {
      if key.NotFound? {
        return Unauthorized;
      } else if key.Failed? {
        return InternalError;
      }
      if req.signature.None? {
        return BadRequest;
      }
      var hash := crypto.hash(req.data);
      if !crypto.verify(key.value, hash, req.signature.value) {
        return Forbidden;
      }
      if event.NotFound? {
        return Missing;
      } else if event.Failed? {
        return InternalError;
      }
      if event.value.eventId != req.eventId {
        return BadRequest;
      }
      if event.value.principal != req.principal {
        return Forbidden;
      }
      if event.value.offChainHash != hash {
        return BadRequest;
      }
      if storeFails {
        return InternalError;
      }
      Insert(StoredEvent(event.value, req.data, req.txHash));
      if !clearFails {
        markers := markers - {event.value.eventId};
      }
      return Accepted;
    }

    /**
      One message of the backfill handler; the handler goes on exactly when the message is genuine, is stored
      or was stored before, and its marker is cleared.
     */
    method HandleBackfill(msg: BackfillData, event: Lookup<ChainEvent>, storeFails: bool, clearFails: bool)
      returns (goesOn: bool)
      modifies this
      ensures goesOn <==> GenuineAnswer(crypto, msg, event) && !storeFails && !clearFails
      ensures
        repo ==
        if GenuineAnswer(crypto, msg, event) && !storeFails && msg.eventId !in old(repo)
        then old(repo)[msg.eventId := StoredEvent(event.value, msg.data, msg.txHash)] else old(repo)
      ensures markers == if goesOn then old(markers) - {msg.eventId} else old(markers)
    {
      if !event.Found? {
        return false;
      }
      if event.value.offChainHash != crypto.hash(msg.data) {
        return false;
      }
      if event.value.eventId != msg.eventId {
        return false;
      }
      if storeFails {
        return false;
      }
      Insert(StoredEvent(event.value, msg.data, msg.txHash));
      if clearFails {
        return false;
      }
      markers := markers - {event.value.eventId};
      return true;
    }

    /** The event id is unique in the repository: a second insert changes nothing. */
    method Insert(s: StoredEvent)
      modifies this`repo
      ensures repo == if s.event.eventId in old(repo) then old(repo) else old(repo)[s.event.eventId := s]
    {
      if s.event.eventId !in repo {
        repo := repo[s.event.eventId := s];
      }
    }
  }
}
