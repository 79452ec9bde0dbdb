/**
 The vote evaluation rule: given a transaction snapshot and the current time,
 is the outcome settled, and what is it?

 The chaincode's loop over the peers returns from every branch of its body, so
 only the first peer is ever inspected. `CheckPeersVoted` reproduces that rule.
 The function's own comment says it decides whether the peers have finished
 voting; `IntendedVerdict` states that all-peer reading of it, kept as a
 reference so the two can be compared.
 */
module Evaluation {
  import opened Types

  /** `decided` tells whether the outcome is settled; `state` is the reported decision. */
  datatype Verdict = Verdict(decided: bool, state: string)

  /**
   The loop over the peers. Every branch of its body returns, so an empty list
   falls through to commit and a non-empty one is judged by its head alone.
   */
  function ScanPeers(peers: seq<Peer>, expires: int, now: int): (v: Verdict)
    ensures |peers| == 0 <==> v == Verdict(true, Commit)
    ensures |peers| > 0 ==> v.state != Commit && (v.decided <==> v.state == Abort)
    ensures |peers| > 0 ==> v == ScanPeers(peers[..1], expires, now)
  {
    if |peers| == 0 then
      // the loop ran to completion without returning
      Verdict(true, Commit)
    else if peers[0].peerDecision != "" && peers[0].peerDecision == Abort then
      Verdict(true, Abort)
    else if IsPending(peers[0].peerDecision) && now > expires then
      Verdict(true, Abort)
    else
      Verdict(false, Pending)
  }

  /** The chaincode's evaluation rule, as written. */
  function CheckPeersVoted(tx: Transaction, now: int): (v: Verdict)
    ensures |tx.involvedPeers| == 0 ==> v == Verdict(false, "")
    ensures v.decided ==> v.state == Abort
    ensures !v.decided ==> v.state == Pending || |tx.involvedPeers| == 0
    ensures v.state != Commit
    ensures |tx.involvedPeers| > 0 ==>
      (v.decided <==>
        var first := tx.involvedPeers[0].peerDecision;
        first == Abort || (IsPending(first) && now > tx.expires))
  {
    if |tx.involvedPeers| == 0 then Verdict(false, "")
    else ScanPeers(tx.involvedPeers, tx.expires, now)
  }

  /** Only the first peer and the deadline influence the verdict. */
  lemma FirstPeerOnly(tx: Transaction, tx': Transaction, now: int)
    requires |tx.involvedPeers| > 0 && |tx'.involvedPeers| > 0
    requires tx.involvedPeers[0].peerDecision == tx'.involvedPeers[0].peerDecision
    requires tx.expires == tx'.expires
    ensures CheckPeersVoted(tx, now) == CheckPeersVoted(tx', now)
  {
  }

  /** Once a verdict is settled it stays settled as time goes on, with the same decision. */
  lemma DecidedStaysDecided(tx: Transaction, now: int, later: int)
    requires CheckPeersVoted(tx, now).decided
    requires now <= later
    ensures CheckPeersVoted(tx, later) == CheckPeersVoted(tx, now)
  {
  }

  predicate SomeoneAborted(peers: seq<Peer>)
  {
    exists i | 0 <= i < |peers| :: peers[i].peerDecision == Abort
  }

  predicate SomeoneUndecided(peers: seq<Peer>)
  {
    exists i | 0 <= i < |peers| :: IsPending(peers[i].peerDecision)
  }

  /**
   The all-peer rule: any abort vote aborts; otherwise an outstanding vote
   aborts once the deadline has passed and waits before it; otherwise every
   peer has voted something other than abort, and the transaction commits.
   */
  function IntendedVerdict(tx: Transaction, now: int): Verdict
  {
    if |tx.involvedPeers| == 0 then Verdict(false, "")
    else if SomeoneAborted(tx.involvedPeers) then Verdict(true, Abort)
    else if SomeoneUndecided(tx.involvedPeers) then
      if now > tx.expires then Verdict(true, Abort) else Verdict(false, Pending)
    else Verdict(true, Commit)
  }

  /** Whenever the literal rule settles an outcome, the all-peer rule settles the same one. */
  lemma LiteralDecisionIsIntended(tx: Transaction, now: int)
    requires CheckPeersVoted(tx, now).decided
    ensures IntendedVerdict(tx, now) == CheckPeersVoted(tx, now)
  {
  }

  predicate AllCommitted(peers: seq<Peer>)
  {
    forall i | 0 <= i < |peers| :: peers[i].peerDecision == Commit
  }

  /**
   When every peer has voted commit, the all-peer rule commits, but the literal
   rule keeps waiting, whatever the time: no transaction, not even one with a
   single peer, is ever committed by the chaincode.
   */
  lemma UnanimousCommitNotRecognised(tx: Transaction, now: int)
    requires |tx.involvedPeers| > 0
    requires AllCommitted(tx.involvedPeers)
    ensures CheckPeersVoted(tx, now) == Verdict(false, Pending)
    ensures IntendedVerdict(tx, now) == Verdict(true, Commit)
  {
  }
}
