/**
 The operations of the chaincode (InitialChaincode.go), each a pure function
 from the ledger before the invocation, the current time and the request
 arguments to the ledger after it and the answer.

 Every operation reads its working set from the ledger and writes it back; no
 state survives between invocations.
 */
module Coordinator {
  import opened Types
  import opened Ledger
  import opened Evaluation

  /* ---------------- Creation ---------------- */

  /** The submitted peers, in order, each with its vote reset to pending. */
  function ResetVotes(peers: seq<Peer>): (r: seq<Peer>)
    ensures |r| == |peers|
    ensures forall i | 0 <= i < |r| :: r[i].peerId == peers[i].peerId && r[i].peerDecision == Pending
  {
    seq(|peers|, i requires 0 <= i < |peers| => Peer(peers[i].peerId, Pending))
  }

  /**
   Creation of a decoded transaction: the identifier must be non-empty and
   unused, then the peer list must be non-empty. The record stored keeps the
   identifier and the peer identifiers, and resets everything else.
   */
  function CreateTransaction(store: Store, now: int, submitted: Transaction): (r: Outcome)
    ensures r.response.Ok? <==>
      submitted.transactionId != "" && submitted.transactionId !in store && |submitted.involvedPeers| > 0
    ensures r.response.Err? ==> r.store == store
    ensures submitted.transactionId == "" || submitted.transactionId in store ==>
      r.response == Err(InvalidOrExistingId)
    ensures submitted.transactionId != "" && submitted.transactionId !in store && |submitted.involvedPeers| == 0 ==>
      r.response == Err(NoPeersInvolved)
    ensures r.response.Ok? ==>
      var id := submitted.transactionId;
      && r.response.payload == Nil
      && r.store.Keys == store.Keys + {id}
      && (forall k | k in store :: r.store[k] == store[k])
      && r.store[id].TxRecord?
      && var tx := r.store[id].tx;
      && tx.transactionId == id
      && tx.finalDecision == Pending
      && tx.expires == now + ExpiryWindow
      && |tx.involvedPeers| == |submitted.involvedPeers|
      && forall i | 0 <= i < |tx.involvedPeers| ::
           tx.involvedPeers[i] == Peer(submitted.involvedPeers[i].peerId, Pending)
  {
    if submitted.transactionId == "" || Exists(store, submitted.transactionId) then
      Outcome(store, Err(InvalidOrExistingId))
    else if |submitted.involvedPeers| == 0 then
      Outcome(store, Err(NoPeersInvolved))
    else
      var tx := Transaction(
        submitted.transactionId,
        ResetVotes(submitted.involvedPeers),
        Pending,
        now + ExpiryWindow);
      Outcome(SaveTransaction(store, tx), Ok(Nil))
  }

  /** The `addTransaction` operation: argument checks, then creation. */
  function AddTransaction(store: Store, now: int, codec: Codec, args: seq<string>): (r: Outcome)
    ensures |args| == 0 ==> r == Outcome(store, Err(MissingArguments))
    ensures |args| > 0 && codec.transaction(args[0]).None? ==> r == Outcome(store, Err(MalformedArgument))
    ensures |args| > 0 && codec.transaction(args[0]).Some? ==>
      r == CreateTransaction(store, now, codec.transaction(args[0]).value)
  {
    if |args| == 0 then Outcome(store, Err(MissingArguments))
    else match codec.transaction(args[0])
      case None => Outcome(store, Err(MalformedArgument))
      case Some(submitted) => CreateTransaction(store, now, submitted)
  }

  /* ---------------- Plain reads ---------------- */

  /** The `queryTransaction` operation: the raw stored value, whatever its kind. */
  function QueryTransaction(store: Store, args: seq<string>): (r: Outcome)
    ensures r.store == store
    ensures |args| != 1 ==> r.response == Err(WrongArgumentCount)
    ensures |args| == 1 ==> (r.response.Ok? <==> args[0] in store)
    ensures |args| == 1 && args[0] in store ==> r.response == Ok(Raw(store[args[0]]))
    ensures |args| == 1 && args[0] !in store ==> r.response == Err(NotFound)
  {
    if |args| != 1 then Outcome(store, Err(WrongArgumentCount))
    else if args[0] !in store then Outcome(store, Err(NotFound))
    else Outcome(store, Ok(Raw(store[args[0]])))
  }

  /** The registry's entries, empty while the registry key holds no peer list. */
  function RegisteredPeers(store: Store): seq<PeerModel>
  {
    if RegisteredPeersKey in store && store[RegisteredPeersKey].PeerList? then
      store[RegisteredPeersKey].peers
    else []
  }

  /** The `getRegisteredPeers` operation: whatever is stored under the registry key. */
  function GetRegisteredPeers(store: Store): (r: Outcome)
    ensures r.store == store
    ensures r.response.Ok?
    ensures RegisteredPeersKey !in store ==> r.response.payload == Nil
    ensures RegisteredPeersKey in store ==> r.response.payload == Raw(store[RegisteredPeersKey])
    ensures r.response.payload.Raw? && r.response.payload.value.PeerList? ==>
      r.response.payload.value.peers == RegisteredPeers(store)
  {
    if RegisteredPeersKey in store then Outcome(store, Ok(Raw(store[RegisteredPeersKey])))
    else Outcome(store, Ok(Nil))
  }

  /* ---------------- Voting ---------------- */

  /** `i` is the position of the first peer named `peerId`. */
  predicate IsFirstMatch(peers: seq<Peer>, peerId: string, i: int)
  {
    && 0 <= i < |peers|
    && peers[i].peerId == peerId
    && forall j | 0 <= j < i :: peers[j].peerId != peerId
  }

  /** The position of the first peer named `peerId`, if there is one. */
  function FirstMatch(peers: seq<Peer>, peerId: string): (r: Option<nat>)
    ensures r.None? <==> forall i | 0 <= i < |peers| :: peers[i].peerId != peerId
    ensures r.Some? ==> IsFirstMatch(peers, peerId, r.value)
  {
    if |peers| == 0 then None
    else if peers[0].peerId == peerId then Some(0)
    else match FirstMatch(peers[1..], peerId)
      case None => None
      case Some(i) => Some(i + 1)
  }

  /**
   `after` is `before` with the first peer named `peerId` carrying `decision`,
   nothing else about the peers, the identifier or the deadline changed, and
   the final decision set to abort exactly when the new votes settle it.
   */
  predicate VoteApplied(before: Transaction, after: Transaction, peerId: string, decision: string, now: int)
  {
    && after.transactionId == before.transactionId
    && after.expires == before.expires
    && |after.involvedPeers| == |before.involvedPeers|
    && (forall j | 0 <= j < |after.involvedPeers| ::
          after.involvedPeers[j] ==
            if IsFirstMatch(before.involvedPeers, peerId, j) then Peer(peerId, decision)
            else before.involvedPeers[j])
    && after.finalDecision ==
         if CheckPeersVoted(after, now).decided then Abort else before.finalDecision
  }

  /**
   A decoded vote. A transaction whose final decision is no longer pending
   accepts any vote as a no-op. The first peer with the voter's identifier gets
   the submitted decision verbatim. An abort vote reports success without
   writing anything; any other vote is written back together with the
   re-evaluated final decision.
   */
  function ApplyVote(store: Store, now: int, req: PeerUpdateRequest): (r: Outcome)
    ensures r.response.Err? ==> r.store == store
    ensures r.response.Ok? ==> r.response.payload == Nil
    ensures req.transactionId == "" || req.transactionId !in store ==>
      r.response == Err(InvalidTransactionId)
    ensures req.transactionId != "" && req.transactionId in store && !store[req.transactionId].TxRecord? ==>
      r.response == Err(CorruptRecord)
    ensures req.decision == Abort ==> r.store == store
    ensures req.transactionId != "" && req.transactionId in store && store[req.transactionId].TxRecord? ==>
      var tx := store[req.transactionId].tx;
      && (!IsPending(tx.finalDecision) ==> r == Outcome(store, Ok(Nil)))
      && (IsPending(tx.finalDecision) && |tx.involvedPeers| == 0 ==> r.response == Err(InvalidPeerCount))
      && (IsPending(tx.finalDecision) && |tx.involvedPeers| > 0 ==>
            && (r.response.Ok? <==> exists i :: IsFirstMatch(tx.involvedPeers, req.peerId, i))
            && (r.response.Err? ==> r.response == Err(PeerNotFound)))
      && (IsPending(tx.finalDecision) && r.response.Ok? && req.decision != Abort ==>
            && r.store.Keys == store.Keys + {tx.transactionId}
            && (forall k | k in store && k != tx.transactionId :: r.store[k] == store[k])
            && r.store[tx.transactionId].TxRecord?
            && VoteApplied(tx, r.store[tx.transactionId].tx, req.peerId, req.decision, now))
  {
    if req.transactionId == "" || !Exists(store, req.transactionId) then
      Outcome(store, Err(InvalidTransactionId))
    else match LoadTransaction(store, req.transactionId)
      case None => Outcome(store, Err(CorruptRecord))
      case Some(tx) =>
        if !IsPending(tx.finalDecision) then
          Outcome(store, Ok(Nil))
        else if |tx.involvedPeers| == 0 then
          Outcome(store, Err(InvalidPeerCount))
        else match FirstMatch(tx.involvedPeers, req.peerId)
          case None => Outcome(store, Err(PeerNotFound))
          case Some(i) =>
            var voted := tx.(involvedPeers :=
              tx.involvedPeers[i := tx.involvedPeers[i].(peerDecision := req.decision)]);
            if req.decision == Abort then
              // the aborted record is built in memory only and never written
              Outcome(store, Ok(Nil))
            else
              var verdict := CheckPeersVoted(voted, now);
              var settled := if verdict.decided then voted.(finalDecision := verdict.state) else voted;
              Outcome(SaveTransaction(store, settled), Ok(Nil))
  }

  /** The `makePeerDecision` operation: argument checks, then the vote. */
  function MakePeerDecision(store: Store, now: int, codec: Codec, args: seq<string>): (r: Outcome)
    ensures |args| == 0 ==> r == Outcome(store, Err(MissingArguments))
    ensures |args| > 0 && codec.update(args[0]).None? ==> r == Outcome(store, Err(MalformedArgument))
    ensures |args| > 0 && codec.update(args[0]).Some? ==>
      r == ApplyVote(store, now, codec.update(args[0]).value)
  {
    if |args| == 0 then Outcome(store, Err(MissingArguments))
    else match codec.update(args[0])
      case None => Outcome(store, Err(MalformedArgument))
      case Some(req) => ApplyVote(store, now, req)
  }

  /* ---------------- Reading the decision ---------------- */

  /**
   The `queryFinalDecision` operation. It re-evaluates the votes and, when
   they settle the outcome, writes the record back with the final decision
   aborted, as a side effect of the read. The answer echoes the identifier and
   the final decision after that update.
   */
  function QueryFinalDecision(store: Store, now: int, args: seq<string>): (r: Outcome)
    ensures r.response.Err? ==> r.store == store
    ensures |args| == 0 ==> r.response == Err(MissingArguments)
    ensures |args| > 0 && args[0] !in store ==> r.response == Err(NotFound)
    ensures |args| > 0 && args[0] in store && !store[args[0]].TxRecord? ==> r.response == Err(CorruptRecord)
    ensures r.response.Ok? <==>
      |args| > 0 && args[0] in store && store[args[0]].TxRecord? && store[args[0]].tx.transactionId != ""
    ensures r.response.Ok? ==>
      var tx := store[args[0]].tx;
      var decided := CheckPeersVoted(tx, now).decided;
      && r.response.payload.Decision?
      && r.response.payload.decision.transactionId == tx.transactionId
      && r.response.payload.decision.finalDecision == (if decided then Abort else tx.finalDecision)
      && (decided ==> r.store == store[tx.transactionId := TxRecord(tx.(finalDecision := Abort))])
      && (!decided ==> r.store == store)
  {
    if |args| == 0 then Outcome(store, Err(MissingArguments))
    else
      var id := args[0];
      if !Exists(store, id) then Outcome(store, Err(NotFound))
      else match LoadTransaction(store, id)
        case None => Outcome(store, Err(CorruptRecord))
        case Some(tx) =>
          if tx.transactionId == "" then Outcome(store, Err(MissingTransactionId))
          else
            var verdict := CheckPeersVoted(tx, now);
            var settled := if verdict.decided then tx.(finalDecision := verdict.state) else tx;
            var store' := if verdict.decided then SaveTransaction(store, settled) else store;
            Outcome(store', Ok(Decision(FinalDecisionResponse(settled.transactionId, settled.finalDecision))))
  }

  /* ---------------- Peer registry ---------------- */

  /**
   The `registerPeer` operation: appends one entry to the registry, starting
   from an empty list when the registry key is unused. Duplicates and empty
   identifiers are accepted.
   */
  function RegisterPeer(store: Store, args: seq<string>): (r: Outcome)
    ensures r.response.Err? ==> r.store == store
    ensures |args| == 0 ==> r.response == Err(MissingArguments)
    ensures r.response.Ok? <==>
      |args| > 0 && (RegisteredPeersKey !in store || store[RegisteredPeersKey].PeerList?)
    ensures |args| > 0 && RegisteredPeersKey in store && !store[RegisteredPeersKey].PeerList? ==>
      r.response == Err(CorruptRecord)
    ensures r.response.Ok? ==>
      && r.response.payload == Nil
      && r.store.Keys == store.Keys + {RegisteredPeersKey}
      && (forall k | k in store && k != RegisteredPeersKey :: r.store[k] == store[k])
      && r.store[RegisteredPeersKey].PeerList?
      && RegisteredPeers(r.store) == RegisteredPeers(store) + [PeerModel(args[0])]
  {
    if |args| == 0 then Outcome(store, Err(MissingArguments))
    else if RegisteredPeersKey !in store then
      Outcome(store[RegisteredPeersKey := PeerList([PeerModel(args[0])])], Ok(Nil))
    else match store[RegisteredPeersKey]
      case PeerList(current) =>
        Outcome(store[RegisteredPeersKey := PeerList(current + [PeerModel(args[0])])], Ok(Nil))
      case _ => Outcome(store, Err(CorruptRecord))
  }

  /* ---------------- Dispatch ---------------- */

  /** The operation names the chaincode answers to. */
  predicate IsOperation(name: string)
  {
    name in {"addTransaction", "queryTransaction", "makePeerDecision",
                  "queryFinalDecision", "registerPeer", "getRegisteredPeers"}
  }

  /**
   The `Invoke` entry point: routes an operation name to its operation.
   Unknown names fail; no failing invocation changes the ledger; no
   invocation removes a key; the two plain reads never write.
   */
  function Invoke(store: Store, now: int, codec: Codec, name: string, args: seq<string>): (r: Outcome)
    ensures !IsOperation(name) ==> r == Outcome(store, Err(InvalidFunction))
    ensures r.response.Err? ==> r.store == store
    ensures store.Keys <= r.store.Keys
    ensures name == "queryTransaction" || name == "getRegisteredPeers" ==> r.store == store
    ensures name == "addTransaction" ==> r == AddTransaction(store, now, codec, args)
    ensures name == "queryTransaction" ==> r == QueryTransaction(store, args)
    ensures name == "getRegisteredPeers" ==> r == GetRegisteredPeers(store)
    ensures name == "makePeerDecision" ==> r == MakePeerDecision(store, now, codec, args)
    ensures name == "queryFinalDecision" ==> r == QueryFinalDecision(store, now, args)
    ensures name == "registerPeer" ==> r == RegisterPeer(store, args)
  {
    match name
    case "addTransaction" => AddTransaction(store, now, codec, args)
    case "queryTransaction" => QueryTransaction(store, args)
    case "makePeerDecision" => MakePeerDecision(store, now, codec, args)
    case "queryFinalDecision" => QueryFinalDecision(store, now, args)
    case "registerPeer" => RegisterPeer(store, args)
    case "getRegisteredPeers" => GetRegisteredPeers(store)
    case _ => Outcome(store, Err(InvalidFunction))
  }
}
