/**
 Properties of the ledger that hold across any sequence of invocations,
 starting from an empty ledger or from any well-formed one.
 */
module Invariants {
  import opened Types
  import opened Ledger
  import opened Evaluation
  import opened Coordinator

  /**
   What a key may hold in a ledger built by the chaincode: a transaction stored
   under its own identifier, with at least one peer and a final decision that
   is pending or aborted; or the peer list under the registry key.
   */
  predicate ValidEntry(key: string, v: StoredValue)
  {
    match v
    case TxRecord(tx) =>
      && tx.transactionId == key
      && |tx.involvedPeers| > 0
      && (tx.finalDecision == Pending || tx.finalDecision == Abort)
    case PeerList(_) => key == RegisteredPeersKey
    case Corrupt => false
  }

  predicate WellFormed(store: Store)
  {
    forall k | k in store :: ValidEntry(k, store[k])
  }

  /** One invocation of the chaincode, with the time at which it runs. */
  datatype Call = Call(now: int, name: string, args: seq<string>)

  /** The ledger after running `calls` in order, each against the result of the previous one. */
  function Run(store: Store, codec: Codec, calls: seq<Call>): Store
    decreases |calls|
  {
    if |calls| == 0 then store
    else
      var c := calls[0];
      Run(Invoke(store, c.now, codec, c.name, c.args).store, codec, calls[1..])
  }

  /** Every invocation keeps the ledger well-formed. */
  lemma InvokePreservesWellFormed(store: Store, now: int, codec: Codec, name: string, args: seq<string>)
    requires WellFormed(store)
    ensures WellFormed(Invoke(store, now, codec, name, args).store)
  {
    var r := Invoke(store, now, codec, name, args);
    if name == "makePeerDecision" {
      if |args| > 0 && codec.update(args[0]).Some? && r.store != store {
        var req := codec.update(args[0]).value;
        var tx := store[req.transactionId].tx;
        assert ValidEntry(req.transactionId, store[req.transactionId]);
        assert VoteApplied(tx, r.store[tx.transactionId].tx, req.peerId, req.decision, now);
      }
    } else if name == "queryFinalDecision" {
      if r.store != store {
        assert ValidEntry(args[0], store[args[0]]);
      }
    }
  }

  /** Any sequence of invocations keeps the ledger well-formed. */
  lemma {:induction false} RunPreservesWellFormed(store: Store, codec: Codec, calls: seq<Call>)
    requires WellFormed(store)
    ensures WellFormed(Run(store, codec, calls))
    decreases |calls|
  {
    if |calls| > 0 {
      var c := calls[0];
      InvokePreservesWellFormed(store, c.now, codec, c.name, c.args);
      RunPreservesWellFormed(Invoke(store, c.now, codec, c.name, c.args).store, codec, calls[1..]);
    }
  }

  /**
   Existence is permanent: once something is stored under a key, the existence
   check answers true for it after any sequence of invocations.
   */
  lemma {:induction false} ExistenceIsPermanent(store: Store, codec: Codec, calls: seq<Call>, key: string)
    requires Exists(store, key)
    ensures Exists(Run(store, codec, calls), key)
    decreases |calls|
  {
    if |calls| > 0 {
      var c := calls[0];
      ExistenceIsPermanent(Invoke(store, c.now, codec, c.name, c.args).store, codec, calls[1..], key);
    }
  }

  /**
   Starting from an empty ledger, no stored transaction ever reaches a commit
   decision: every final decision stays pending or aborted.
   */
  lemma NoTransactionEverCommits(codec: Codec, calls: seq<Call>, key: string)
    requires key in Run(map[], codec, calls) && Run(map[], codec, calls)[key].TxRecord?
    ensures Run(map[], codec, calls)[key].tx.finalDecision in {Pending, Abort}
    ensures Run(map[], codec, calls)[key].tx.finalDecision != Commit
  {
    RunPreservesWellFormed(map[], codec, calls);
    assert ValidEntry(key, Run(map[], codec, calls)[key]);
  }

  /** An aborted transaction record is never changed again by a single invocation. */
  lemma InvokeKeepsAbortedRecord(store: Store, now: int, codec: Codec, name: string, args: seq<string>, key: string)
    requires WellFormed(store)
    requires key in store && store[key].TxRecord? && store[key].tx.finalDecision == Abort
    ensures var s := Invoke(store, now, codec, name, args).store; key in s && s[key] == store[key]
  {
  }

  /** Once a transaction is aborted, no sequence of invocations changes its record. */
  lemma {:induction false} AbortedRecordFrozen(store: Store, codec: Codec, calls: seq<Call>, key: string)
    requires WellFormed(store)
    requires key in store && store[key].TxRecord? && store[key].tx.finalDecision == Abort
    ensures key in Run(store, codec, calls) && Run(store, codec, calls)[key] == store[key]
    decreases |calls|
  {
    if |calls| > 0 {
      var c := calls[0];
      var next := Invoke(store, c.now, codec, c.name, c.args).store;
      InvokeKeepsAbortedRecord(store, c.now, codec, c.name, c.args, key);
      InvokePreservesWellFormed(store, c.now, codec, c.name, c.args);
      AbortedRecordFrozen(next, codec, calls[1..], key);
    }
  }

  /** Two records of the same transaction: same identifier, deadline and peer identifiers, in order. */
  predicate SameShape(a: Transaction, b: Transaction)
  {
    && a.transactionId == b.transactionId
    && a.expires == b.expires
    && |a.involvedPeers| == |b.involvedPeers|
    && forall i | 0 <= i < |a.involvedPeers| :: a.involvedPeers[i].peerId == b.involvedPeers[i].peerId
  }

  /** A vote never replaces a stored transaction, nor changes its identifier, deadline or peers. */
  lemma ApplyVoteKeepsShape(store: Store, now: int, req: PeerUpdateRequest, key: string)
    requires WellFormed(store)
    requires key in store && store[key].TxRecord?
    ensures var s := ApplyVote(store, now, req).store;
            key in s && s[key].TxRecord? && SameShape(store[key].tx, s[key].tx)
  {
    assert ValidEntry(key, store[key]);
    var s := ApplyVote(store, now, req).store;
    if req.transactionId != "" && req.transactionId in store {
      assert ValidEntry(req.transactionId, store[req.transactionId]);
      if req.transactionId == key && s != store {
        var tx := store[key].tx;
        assert VoteApplied(tx, s[key].tx, req.peerId, req.decision, now);
        forall i | 0 <= i < |tx.involvedPeers|
          ensures tx.involvedPeers[i].peerId == s[key].tx.involvedPeers[i].peerId
        {
          if IsFirstMatch(tx.involvedPeers, req.peerId, i) {
            assert s[key].tx.involvedPeers[i] == Peer(req.peerId, req.decision);
          } else {
            assert s[key].tx.involvedPeers[i] == tx.involvedPeers[i];
          }
        }
      }
    }
  }

  /** A single invocation never replaces a stored transaction, nor changes its identifier, deadline or peers. */
  lemma InvokeKeepsShape(store: Store, now: int, codec: Codec, name: string, args: seq<string>, key: string)
    requires WellFormed(store)
    requires key in store && store[key].TxRecord?
    ensures var s := Invoke(store, now, codec, name, args).store;
            key in s && s[key].TxRecord? && SameShape(store[key].tx, s[key].tx)
  {
    var r := Invoke(store, now, codec, name, args);
    if name == "makePeerDecision" {
      if |args| > 0 && codec.update(args[0]).Some? {
        ApplyVoteKeepsShape(store, now, codec.update(args[0]).value, key);
      }
    } else if name == "queryFinalDecision" {
      if |args| > 0 && args[0] in store {
        assert ValidEntry(args[0], store[args[0]]);
      }
    } else if name == "addTransaction" || name == "registerPeer" {
      assert r.store[key] == store[key];
    } else {
      assert r.store == store;
    }
  }

  /**
   A transaction record under the registry key stays a transaction record after
   one invocation: every write of a transaction stores a transaction, and the
   registry is only written where the key is unused or already holds a list.
   */
  lemma InvokeKeepsRegistryBlocked(store: Store, now: int, codec: Codec, name: string, args: seq<string>)
    requires RegisteredPeersKey in store && store[RegisteredPeersKey].TxRecord?
    ensures var s := Invoke(store, now, codec, name, args).store;
            RegisteredPeersKey in s && s[RegisteredPeersKey].TxRecord?
  {
  }

  /**
   Once a transaction occupies the registry key, every later registration
   fails, whatever the peer and whatever ran in between, and leaves the ledger
   as it was.
   */
  lemma {:induction false} RegistryBlockedForever(store: Store, codec: Codec, calls: seq<Call>, peerId: string)
    requires RegisteredPeersKey in store && store[RegisteredPeersKey].TxRecord?
    ensures var s := Run(store, codec, calls);
            && RegisteredPeersKey in s && s[RegisteredPeersKey].TxRecord?
            && RegisterPeer(s, [peerId]) == Outcome(s, Err(CorruptRecord))
    decreases |calls|
  {
    if |calls| > 0 {
      var c := calls[0];
      InvokeKeepsRegistryBlocked(store, c.now, codec, c.name, c.args);
      RegistryBlockedForever(Invoke(store, c.now, codec, c.name, c.args).store, codec, calls[1..], peerId);
    }
  }

  /**
   Over any sequence of invocations a stored transaction keeps its identifier,
   deadline and peer identifiers: peers are never added, removed or reordered.
   */
  lemma {:induction false} ShapeFixedForever(store: Store, codec: Codec, calls: seq<Call>, key: string)
    requires WellFormed(store)
    requires key in store && store[key].TxRecord?
    ensures var s := Run(store, codec, calls);
            key in s && s[key].TxRecord? && SameShape(store[key].tx, s[key].tx)
    decreases |calls|
  {
    if |calls| > 0 {
      var c := calls[0];
      var next := Invoke(store, c.now, codec, c.name, c.args).store;
      InvokeKeepsShape(store, c.now, codec, c.name, c.args, key);
      InvokePreservesWellFormed(store, c.now, codec, c.name, c.args);
      ShapeFixedForever(next, codec, calls[1..], key);
    }
  }
}
