/**
 Properties that relate several operations: what one invocation leaves behind
 for the next to observe.
 */
module Scenarios {
  import opened Types
  import opened Ledger
  import opened Evaluation
  import opened Coordinator
  import opened Invariants

  /** `submitted` is a creation request that `CreateTransaction` accepts against `store`. */
  predicate Creatable(store: Store, submitted: Transaction)
  {
    submitted.transactionId != "" && submitted.transactionId !in store && |submitted.involvedPeers| > 0
  }

  /**
   Reading a transaction right after creating it returns a pending record with
   the submitted peers, all pending, and a deadline five minutes from creation.
   */
  lemma CreateThenQuery(store: Store, now: int, codec: Codec, arg: string, submitted: Transaction)
    requires codec.transaction(arg) == Some(submitted)
    requires Creatable(store, submitted)
    ensures var created := AddTransaction(store, now, codec, [arg]);
            var read := QueryTransaction(created.store, [submitted.transactionId]);
            && created.response == Ok(Nil)
            && read.response.Ok? && read.response.payload.Raw? && read.response.payload.value.TxRecord?
            && var tx := read.response.payload.value.tx;
            && tx.transactionId == submitted.transactionId
            && tx.finalDecision == Pending
            && tx.expires == now + ExpiryWindow
            && |tx.involvedPeers| == |submitted.involvedPeers|
            && forall i | 0 <= i < |tx.involvedPeers| ::
                 tx.involvedPeers[i] == Peer(submitted.involvedPeers[i].peerId, Pending)
  {
  }

  /** Once a transaction exists, creating it again fails, whatever the payload, and changes nothing. */
  lemma DuplicateCreationFails(store: Store, now: int, later: int, codec: Codec, arg: string, again: string,
                               submitted: Transaction)
    requires codec.transaction(arg) == Some(submitted)
    requires Creatable(store, submitted)
    requires codec.transaction(again).Some?
    requires codec.transaction(again).value.transactionId == submitted.transactionId
    ensures var created := AddTransaction(store, now, codec, [arg]).store;
            AddTransaction(created, later, codec, [again]) == Outcome(created, Err(InvalidOrExistingId))
  {
  }

  /**
   A transaction whose first peer never voted is aborted by the first
   final-decision query after its deadline, and the abort is persisted.
   */
  lemma StalledFirstPeerTimesOut(store: Store, now: int, key: string)
    requires key in store && store[key].TxRecord?
    requires var tx := store[key].tx;
             tx.transactionId == key && key != "" && |tx.involvedPeers| > 0
             && IsPending(tx.involvedPeers[0].peerDecision) && now > tx.expires
    ensures var r := QueryFinalDecision(store, now, [key]);
            && r.response == Ok(Decision(FinalDecisionResponse(key, Abort)))
            && key in r.store && r.store[key] == TxRecord(store[key].tx.(finalDecision := Abort))
  {
  }

  /**
   A transaction created at `created` and queried, without any vote, later than
   five minutes after that reads as aborted, and the ledger records the abort.
   */
  lemma TimeoutForcesAbort(store: Store, created: int, later: int, codec: Codec, arg: string,
                           submitted: Transaction)
    requires codec.transaction(arg) == Some(submitted)
    requires Creatable(store, submitted)
    requires later > created + ExpiryWindow
    ensures var id := submitted.transactionId;
            var s := AddTransaction(store, created, codec, [arg]).store;
            var r := QueryFinalDecision(s, later, [id]);
            && r.response == Ok(Decision(FinalDecisionResponse(id, Abort)))
            && r.store[id].TxRecord? && r.store[id].tx.finalDecision == Abort
  {
  }

  /**
   Before the deadline a fresh transaction reads as pending, and the query
   leaves the ledger untouched.
   */
  lemma FreshTransactionPending(store: Store, created: int, later: int, codec: Codec, arg: string,
                                submitted: Transaction)
    requires codec.transaction(arg) == Some(submitted)
    requires Creatable(store, submitted)
    requires later <= created + ExpiryWindow
    ensures var id := submitted.transactionId;
            var s := AddTransaction(store, created, codec, [arg]).store;
            QueryFinalDecision(s, later, [id]) == Outcome(s, Ok(Decision(FinalDecisionResponse(id, Pending))))
  {
  }

  /**
   An abort vote is acknowledged but never recorded: the ledger is unchanged,
   so before the deadline the transaction still reads as pending.
   */
  lemma AbortVoteIsLost(store: Store, created: int, voted: int, later: int, codec: Codec,
                        arg: string, vote: string, submitted: Transaction)
    requires codec.transaction(arg) == Some(submitted)
    requires Creatable(store, submitted)
    requires codec.update(vote) ==
      Some(PeerUpdateRequest(submitted.transactionId, submitted.involvedPeers[0].peerId, Abort))
    requires later <= created + ExpiryWindow
    ensures var id := submitted.transactionId;
            var s := AddTransaction(store, created, codec, [arg]).store;
            var afterVote := MakePeerDecision(s, voted, codec, [vote]);
            && afterVote == Outcome(s, Ok(Nil))
            && QueryFinalDecision(afterVote.store, later, [id]).response
               == Ok(Decision(FinalDecisionResponse(id, Pending)))
  {
  }

  /** A vote from a peer the transaction does not name fails and changes nothing. */
  lemma UnknownPeerRejected(store: Store, created: int, voted: int, codec: Codec, arg: string, vote: string,
                            submitted: Transaction, stranger: string, decision: string)
    requires codec.transaction(arg) == Some(submitted)
    requires Creatable(store, submitted)
    requires forall i | 0 <= i < |submitted.involvedPeers| :: submitted.involvedPeers[i].peerId != stranger
    requires codec.update(vote) == Some(PeerUpdateRequest(submitted.transactionId, stranger, decision))
    ensures var s := AddTransaction(store, created, codec, [arg]).store;
            MakePeerDecision(s, voted, codec, [vote]) == Outcome(s, Err(PeerNotFound))
  {
  }

  /**
   Timeouts are also noticed by votes: a commit vote from a peer other than
   the first, cast after the deadline while the first peer has not voted,
   is written together with an aborted final decision.
   */
  lemma LateVoteAborts(store: Store, created: int, voted: int, codec: Codec, arg: string, vote: string,
                       submitted: Transaction, decision: string)
    requires codec.transaction(arg) == Some(submitted)
    requires Creatable(store, submitted)
    requires |submitted.involvedPeers| >= 2
    requires submitted.involvedPeers[0].peerId != submitted.involvedPeers[1].peerId
    requires decision != Abort
    requires codec.update(vote) ==
      Some(PeerUpdateRequest(submitted.transactionId, submitted.involvedPeers[1].peerId, decision))
    requires voted > created + ExpiryWindow
    ensures var id := submitted.transactionId;
            var s := AddTransaction(store, created, codec, [arg]).store;
            var r := MakePeerDecision(s, voted, codec, [vote]);
            && r.response == Ok(Nil)
            && r.store[id].TxRecord?
            && r.store[id].tx.finalDecision == Abort
            && r.store[id].tx.involvedPeers[1].peerDecision == decision
  {
  }

  /**
   A lone peer's commit vote is written but never settles its transaction: at
   any later time the final decision still reads as pending.
   */
  lemma LoneCommitVoteNeverSettles(store: Store, created: int, voted: int, later: int, codec: Codec,
                                   arg: string, vote: string, submitted: Transaction)
    requires codec.transaction(arg) == Some(submitted)
    requires Creatable(store, submitted)
    requires |submitted.involvedPeers| == 1
    requires codec.update(vote) ==
      Some(PeerUpdateRequest(submitted.transactionId, submitted.involvedPeers[0].peerId, Commit))
    ensures var id := submitted.transactionId;
            var s := AddTransaction(store, created, codec, [arg]).store;
            var r := MakePeerDecision(s, voted, codec, [vote]);
            && r.response == Ok(Nil)
            && r.store[id].TxRecord?
            && r.store[id].tx.involvedPeers[0].peerDecision == Commit
            && QueryFinalDecision(r.store, later, [id]).response
               == Ok(Decision(FinalDecisionResponse(id, Pending)))
  {
    var id := submitted.transactionId;
    var p := submitted.involvedPeers[0].peerId;
    var s := AddTransaction(store, created, codec, [arg]).store;
    var tx := Transaction(id, [Peer(p, Pending)], Pending, created + ExpiryWindow);
    assert s[id].tx.involvedPeers == [Peer(p, Pending)];
    assert s == store[id := TxRecord(tx)];
    var voted' := tx.(involvedPeers := [Peer(p, Commit)]);
    assert CheckPeersVoted(voted', voted) == Verdict(false, Pending);
    assert CheckPeersVoted(voted', later) == Verdict(false, Pending);
    assert FirstMatch(tx.involvedPeers, p) == Some(0);
    assert tx.involvedPeers[0 := tx.involvedPeers[0].(peerDecision := Commit)] == [Peer(p, Commit)];
    assert ApplyVote(s, voted, PeerUpdateRequest(id, p, Commit)) == Outcome(s[id := TxRecord(voted')], Ok(Nil));
  }

  /**
   Once the first peer's stored vote is neither pending nor "A" (a commit, or
   any other string), the deadline no longer matters: at every time the
   final-decision query answers the stored decision and writes nothing, however
   long the other peers stall.
   */
  lemma FirstVoteBlocksTimeout(store: Store, now: int, key: string)
    requires key in store && store[key].TxRecord?
    requires var tx := store[key].tx;
             tx.transactionId != "" && |tx.involvedPeers| > 0
             && !IsPending(tx.involvedPeers[0].peerDecision) && tx.involvedPeers[0].peerDecision != Abort
    ensures var tx := store[key].tx;
            QueryFinalDecision(store, now, [key])
            == Outcome(store, Ok(Decision(FinalDecisionResponse(tx.transactionId, tx.finalDecision))))
  {
  }

  /**
   A commit vote from the first peer of a pending transaction is written: the
   first peer now holds "C", and since the first-peer rule never settles on
   "C" the final decision stays pending.
   */
  lemma FirstPeerCommitWritten(store: Store, now: int, id: string, p: string)
    requires id in store && store[id].TxRecord?
    requires var tx := store[id].tx;
             tx.transactionId == id && id != "" && tx.finalDecision == Pending
             && |tx.involvedPeers| > 0 && tx.involvedPeers[0].peerId == p
    ensures var r := ApplyVote(store, now, PeerUpdateRequest(id, p, Commit));
            && r.response == Ok(Nil)
            && id in r.store && r.store[id].TxRecord?
            && var after := r.store[id].tx;
            && after.transactionId == id && after.finalDecision == Pending
            && |after.involvedPeers| > 0 && after.involvedPeers[0].peerDecision == Commit
  {
    var tx := store[id].tx;
    assert FirstMatch(tx.involvedPeers, p) == Some(0);
    var r := ApplyVote(store, now, PeerUpdateRequest(id, p, Commit));
    assert VoteApplied(tx, r.store[id].tx, p, Commit, now);
    assert IsFirstMatch(tx.involvedPeers, p, 0);
  }

  /**
   With any number of peers, a commit vote from the first peer is written and
   the transaction then reads as pending at every later time, even when the
   other peers never vote.
   */
  lemma FirstCommitVoteNeverSettles(store: Store, created: int, voted: int, later: int, codec: Codec,
                                    arg: string, vote: string, submitted: Transaction)
    requires codec.transaction(arg) == Some(submitted)
    requires Creatable(store, submitted)
    requires codec.update(vote) ==
      Some(PeerUpdateRequest(submitted.transactionId, submitted.involvedPeers[0].peerId, Commit))
    ensures var id := submitted.transactionId;
            var s := AddTransaction(store, created, codec, [arg]).store;
            var r := MakePeerDecision(s, voted, codec, [vote]);
            && r.response == Ok(Nil)
            && r.store[id].TxRecord?
            && r.store[id].tx.involvedPeers[0].peerDecision == Commit
            && QueryFinalDecision(r.store, later, [id])
               == Outcome(r.store, Ok(Decision(FinalDecisionResponse(id, Pending))))
  {
    var id := submitted.transactionId;
    var p := submitted.involvedPeers[0].peerId;
    var s := AddTransaction(store, created, codec, [arg]).store;
    assert s[id].tx.involvedPeers[0].peerId == p;
    var r := ApplyVote(s, voted, PeerUpdateRequest(id, p, Commit));
    FirstPeerCommitWritten(s, voted, id, p);
    assert MakePeerDecision(s, voted, codec, [vote]) == r;
    FirstVoteBlocksTimeout(r.store, later, id);
  }

  /** Registering two peers in turn lists both, in registration order. */
  lemma RegistryAccumulates(store: Store, p1: string, p2: string)
    requires RegisteredPeersKey !in store
    ensures var s1 := RegisterPeer(store, [p1]).store;
            var s2 := RegisterPeer(s1, [p2]).store;
            GetRegisteredPeers(s2).response == Ok(Raw(PeerList([PeerModel(p1), PeerModel(p2)])))
  {
  }

  /**
   A transaction may be created under the registry key while that key is
   unused; from then on, whatever invocations follow, every registration fails
   and the registry read returns the transaction record.
   */
  lemma RegistryKeyTakenByTransaction(store: Store, now: int, codec: Codec, arg: string,
                                      submitted: Transaction, calls: seq<Call>, peerId: string)
    requires codec.transaction(arg) == Some(submitted)
    requires submitted.transactionId == RegisteredPeersKey
    requires Creatable(store, submitted)
    ensures var s := Run(AddTransaction(store, now, codec, [arg]).store, codec, calls);
            && RegisterPeer(s, [peerId]) == Outcome(s, Err(CorruptRecord))
            && GetRegisteredPeers(s).response.payload.Raw?
            && GetRegisteredPeers(s).response.payload.value.TxRecord?
  {
    RegistryBlockedForever(AddTransaction(store, now, codec, [arg]).store, codec, calls, peerId);
  }

  /** Querying the final decision twice at the same time answers the same and writes nothing more. */
  lemma QueryFinalDecisionIdempotent(store: Store, now: int, args: seq<string>)
    requires |args| > 0 && args[0] in store && store[args[0]].TxRecord?
    ensures var first := QueryFinalDecision(store, now, args);
            QueryFinalDecision(first.store, now, args) == first
  {
  }
}
