/**
 The records of the commit-coordination chaincode and the constants it shares
 between operations. Decision values stay strings, exactly as the chaincode
 stores them: a vote is written verbatim and never validated, so any string
 can end up in a peer's decision.
 */
module Types {

  datatype Option<+T> = None | Some(value: T)

  /** Decision sentinels used by the chaincode. */
  const Pending: string := "P"
  const Commit: string := "C"
  const Abort: string := "A"

  /** The reserved ledger key holding the flat peer registry. */
  const RegisteredPeersKey: string := "RegisteredPeers"

  /** Lifetime of a transaction: five minutes, with time counted in seconds. */
  const ExpiryWindow: int := 300

  /** The chaincode treats an unset decision exactly like "P". */
  predicate IsPending(decision: string)
  {
    decision == "" || decision == Pending
  }

  /** One participant of a transaction and its current vote. */
  datatype Peer = Peer(peerId: string, peerDecision: string)

  /** A coordinated transaction as stored in the ledger; `expires` is a time in seconds. */
  datatype Transaction = Transaction(
    transactionId: string,
    involvedPeers: seq<Peer>,
    finalDecision: string,
    expires: int)

  /** The request a peer submits to cast its vote. */
  datatype PeerUpdateRequest = PeerUpdateRequest(transactionId: string, peerId: string, decision: string)

  /** The answer to a final-decision query. */
  datatype FinalDecisionResponse = FinalDecisionResponse(transactionId: string, finalDecision: string)

  /** One entry of the peer registry. */
  datatype PeerModel = PeerModel(peerId: string)
}
