/**
  What an undisturbed coordinated save meets at one participant: the answer to
  each request, and the state it is left in.
 */
module ConfigurationSaves {
  import opened Wrappers
  import opened LiveConfiguration
  import opened ConfigurationPeers

  /** Nothing is in the way of a capture: no freeze, nothing uncertain, HEAD complete, and not moved past staged
      edits. */
  ghost predicate Capturable(s: Store, p: Peer)
    requires Inv(s)
  {
    && PeerInv(s, p) && p.pending.None? && p.uncertain.None? && Complete(p, HeadSnapshot(s), true)
    && (Clean(p) || DigestOf(p.accepted) == HeadDigest(s))
  }

  /** The effect and the answer of one undisturbed request. */
  ghost function Answer(s: Store, p: Peer, transaction: nat, message: Message): (Peer, Result<Reply, Error>)
    requires Inv(s)
  {
    Ask(p, transaction, message, IntentDigest(s), CalmReading(s, if message.Abort? then None else p.accepted))
  }

  /** The participant once captured. */
  ghost function Frozen(s: Store, p: Peer, transaction: nat): Peer
    requires Inv(s)
  {
    p.(accepted := HeadSnapshot(s),
       pending := Some(Freeze(transaction, HeadDigest(s), None, p.versions, p.cadenceVersion, p.staged,
                              p.stagedCadence)))
  }

  ghost function CaptureReply(s: Store, p: Peer): Reply { Captured(HeadDigest(s), p.owners, p.staged, p.stagedCadence) }

  /** The participant once it approved the proposal. */
  ghost function Approving(s: Store, p: Peer, transaction: nat, proposal: Projection): Peer
    requires Inv(s)
  {
    var q := Frozen(s, p, transaction);
    q.(pending := Some(q.pending.value.(proposal := Some(proposal))))
  }

  /** The proposal is one the participant can approve. */
  ghost predicate Approvable(p: Peer, proposal: Projection) {
    && 1 <= proposal.cadence <= 3600 && Honours(proposal, p.staged, p.stagedCadence)
    && forall name :: name in p.owners ==> name in proposal.values
  }

  lemma CaptureAnswer(s: Store, p: Peer, transaction: nat)
    requires Inv(s) && Capturable(s, p)
    ensures Answer(s, p, transaction, Capture) == (Frozen(s, p, transaction), Ok(CaptureReply(s, p)))
  {
    var seen := CalmReading(s, p.accepted);
    CalmReads(s, p.accepted);
    ReloadExact(p, seen);
    CaptureExact(p, transaction, seen);
    HeadIsSnapshot(s);
    hide CaptureEdits, ReloadEdit, CalmReading, PeerInv;
    assert ReloadEdit(p, seen).0 == p.(accepted := HeadSnapshot(s));
  }

  lemma HeadIsSnapshot(s: Store)
    requires Inv(s)
    ensures DigestOf(HeadSnapshot(s)) == HeadDigest(s)
  {
  }

  lemma PrepareAnswer(s: Store, p: Peer, transaction: nat, proposal: Projection)
    requires Inv(s) && Approvable(p, proposal)
    ensures Answer(s, Frozen(s, p, transaction), transaction, Prepare(proposal))
         == (Approving(s, p, transaction, proposal), Ok(Prepared(proposal)))
  {
    var q := Frozen(s, p, transaction);
    PrepareExact(q, proposal, true);
    hide PrepareEdits, CaptureEdits, AbortEdits, FinishEdits, ReloadEdit;
  }

  /** The store after the save: HEAD is the child of the captured base with the proposal. */
  ghost predicate Holds(s: Store, t: Store, transaction: nat, proposal: Projection)
    requires Inv(s) && Inv(t)
  {
    var head := HeadSnapshot(t);
    && head.Some? && head.value.record.settings == proposal && head.value.record.parent == HeadDigest(s)
    && head.value.record.provenance.Some? && head.value.record.provenance.value.operation == Token(transaction)
  }

  lemma FinishAnswer(s: Store, t: Store, p: Peer, transaction: nat, proposal: Projection)
    requires Inv(s) && Inv(t) && Capturable(s, p) && Approvable(p, proposal)
    requires PeerInv(t, Approving(s, p, transaction, proposal)) && Holds(s, t, transaction, proposal)
    ensures Answer(t, Approving(s, p, transaction, proposal), transaction, Finish(HeadDigest(t))).1
         == Ok(Finished(HeadDigest(t)))
  {
    var q := Approving(s, p, transaction, proposal);
    CalmReads(t, q.accepted);
    HeadIsSnapshot(t);
    FinishExact(q, HeadDigest(t), CalmReading(t, q.accepted));
    hide CaptureEdits, AbortEdits, FinishEdits, ReloadEdit, CalmReading;
  }

  /** With nothing proposed the finish finds HEAD where it was. */
  lemma FinishNothing(s: Store, p: Peer, transaction: nat)
    requires Inv(s) && Capturable(s, p) && PeerInv(s, Frozen(s, p, transaction))
    ensures Answer(s, Frozen(s, p, transaction), transaction, Finish(HeadDigest(s))).1 == Ok(Finished(HeadDigest(s)))
  {
    var q := Frozen(s, p, transaction);
    CalmReads(s, q.accepted);
    HeadIsSnapshot(s);
    FinishUnprepared(q, HeadDigest(s), CalmReading(s, q.accepted));
    hide CaptureEdits, AbortEdits, FinishEdits, ReloadEdit, CalmReading;
  }
}
