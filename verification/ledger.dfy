/**
 The key/value ledger the chaincode reads and writes, the decoding of request
 arguments, and the shape of an operation's answer.

 The ledger holds decoded values: a transaction record, the registry's peer
 list, or bytes that decode to neither. Transactions and the registry share one
 key space, so a transaction whose identifier is the registry key occupies it.
 */
module Ledger {
  import opened Types

  datatype StoredValue =
    | TxRecord(tx: Transaction)
    | PeerList(peers: seq<PeerModel>)
    | Corrupt

  type Store = map<string, StoredValue>

  /** Decoding of the JSON request argument; a malformed argument decodes to None. */
  datatype Codec = Codec(
    transaction: string -> Option<Transaction>,
    update: string -> Option<PeerUpdateRequest>)

  /** The failures an invocation can report. */
  datatype Error =
    | InvalidFunction        // unknown operation name
    | WrongArgumentCount     // queryTransaction wants exactly one argument
    | MissingArguments       // no argument at all
    | MalformedArgument      // the argument does not decode
    | InvalidOrExistingId    // creation with an empty or taken identifier
    | NoPeersInvolved        // creation with an empty peer list
    | InvalidTransactionId   // vote on an empty or unknown identifier
    | NotFound               // query of an unknown identifier
    | CorruptRecord          // the stored value is not of the expected kind
    | MissingTransactionId   // stored transaction carries an empty identifier
    | InvalidPeerCount       // stored transaction has no peers
    | PeerNotFound           // the voting peer is not part of the transaction

  /** What a successful invocation hands back: nothing, raw stored bytes, or a decision. */
  datatype Payload =
    | Nil
    | Raw(value: StoredValue)
    | Decision(decision: FinalDecisionResponse)

  datatype Response = Ok(payload: Payload) | Err(error: Error)

  /** The ledger after an invocation, together with its answer. */
  datatype Outcome = Outcome(store: Store, response: Response)

  /**
   The existence check of the chaincode: true when something, of whatever
   kind, is stored under `key`, and false when the key is unused.
   */
  function Exists(store: Store, key: string): (r: bool)
    ensures r <==> key in store
    ensures LoadTransaction(store, key).Some? ==> r
  {
    key in store
  }

  /** The stored transaction under `key`, if the key holds one. */
  function LoadTransaction(store: Store, key: string): (r: Option<Transaction>)
    ensures r.Some? <==> key in store && store[key].TxRecord?
    ensures r.Some? ==> store[key] == TxRecord(r.value)
  {
    if key in store && store[key].TxRecord? then Some(store[key].tx) else None
  }

  /** Writing a transaction back under its own identifier. */
  function SaveTransaction(store: Store, tx: Transaction): (r: Store)
    ensures r.Keys == store.Keys + {tx.transactionId}
    ensures r[tx.transactionId] == TxRecord(tx)
    ensures forall k | k in store && k != tx.transactionId :: r[k] == store[k]
  {
    store[tx.transactionId := TxRecord(tx)]
  }
}
