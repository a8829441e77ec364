/**
  Any number of processes over one store: every interleaving of their staging,
  reloads, flushes and participant requests with the durable writes of any other
  writer, with lost acknowledgements and restarts.
 */
module ConfigurationRuns {
  import opened Wrappers
  import opened LiveConfiguration
  import opened ConfigurationPeers

  datatype Action =
    | Stage(name: Name, value: Value, valid: bool)
    | SetCadence(seconds: int)
    | Reload(seen: Observation)
    | Discard(seen: Observation)
    | Persist(outcome: Result<Snapshot, Error>)
    | Request(transaction: nat, message: Message, refused: bool, seen: Observation)
    | Disconnect
    | Restart(seen: Observation)

  /** The store's answer to the read an action makes. */
  ghost predicate Sees(a: Action, s: Store, p: Peer)
    requires Inv(s)
  {
    match a
    case Reload(seen) => Observes(s, p.accepted, seen)
    case Discard(seen) => Observes(s, p.accepted, seen)
    case Request(_, message, _, seen) =>
      if message.Abort? then Observes(s, None, seen) else Observes(s, p.accepted, seen)
    case Restart(seen) => Observes(s, None, seen)
    case _ => true
  }

  /** Process `p` performs `a` on store `s`, leaving `t` and `q`. */
  ghost predicate Acts(a: Action, s: Store, p: Peer, t: Store, q: Peer)
    requires Inv(s)
  {
    && Sees(a, s, p)
    && (a.Persist? || t == s)
    && match a
       case Stage(name, value, valid) => q == StageEdit(p, name, value, valid).0
       case SetCadence(seconds) => q == StageCadence(p, seconds).0
       case Reload(seen) => q == ReloadEdit(p, seen).0
       case Discard(seen) => q == DiscardEdits(p, seen).0
       case Persist(outcome) =>
         && Flushable(p)
         && Persisted(s, p, t, outcome)
         && q == AfterPersist(p, outcome)
       case Request(transaction, message, refused, seen) =>
         q == if refused then p else Ask(p, transaction, message, IntentDigest(s), seen).0
       case Disconnect => q == ReleaseUnprepared(p)
       case Restart(seen) => q == ReloadEdit(Newborn(p.owners, p.provenance), seen).0
  }

  /** Every action keeps the store descending and the process's invariant. Only a restart
      forgets the accepted snapshot. */
  lemma ActKeeps(a: Action, s: Store, p: Peer, t: Store, q: Peer)
    requires PeerInv(s, p) && Acts(a, s, p, t, q)
    ensures Descends(s, t) && PeerInv(t, q)
    ensures !a.Restart? ==> Advances(t, p.accepted, q.accepted)
  {
    SameDescends(s);
    AcceptedStays(s, p);
    match a
    case Stage(name, value, valid) => StageKeeps(s, p, name, value, valid);
    case SetCadence(seconds) => CadenceKeeps(s, p, seconds);
    case Reload(seen) => ReloadKeeps(s, p, seen);
    case Discard(seen) => DiscardKeeps(s, p, seen);
    case Persist(outcome) =>
      PersistKeeps(s, p, t, outcome);
      AcceptedStays(t, q);
    case Request(transaction, message, refused, seen) =>
      if !refused { AskKeeps(s, p, transaction, message, seen); }
    case Disconnect =>
    case Restart(seen) =>
      assert PeerInv(s, Newborn(p.owners, p.provenance));
      ReloadKeeps(s, Newborn(p.owners, p.provenance), seen);
  }

  /** What may take a staged edit away: a discard, a restart, a later edit of the same
      owner, or the revision that carries it. */
  ghost predicate Leaves(a: Action, q: Peer, name: Name, value: Value) {
    a.Discard? || a.Restart? || (a.Stage? && a.name == name) || Landed(q.accepted, name, value)
  }

  lemma EditLeavesOnlyWithCause(a: Action, s: Store, p: Peer, t: Store, q: Peer, name: Name)
    requires PeerInv(s, p) && Acts(a, s, p, t, q)
    requires name in p.staged && (name in q.staged ==> q.staged[name] != p.staged[name])
    ensures Leaves(a, q, name, p.staged[name])
  {
    match a
    case Reload(seen) => ReloadKeeps(s, p, seen);
    case Request(transaction, message, refused, seen) =>
      if !refused { AskKeeps(s, p, transaction, message, seen); }
    case _ =>
  }

  // ------------------------------------------------------------------ runs

  datatype World = World(store: Store, peers: seq<Peer>)

  /** One process acts, or some other writer makes one durable write. */
  datatype Move = Local(i: nat, action: Action) | Elsewhere

  ghost predicate WorldInv(w: World) {
    Inv(w.store) && forall i :: 0 <= i < |w.peers| ==> PeerInv(w.store, w.peers[i])
  }

  ghost predicate Moves(m: Move, w: World, x: World)
    requires Inv(w.store)
  {
    match m
    case Elsewhere => Step(w.store, x.store) && x.peers == w.peers
    case Local(i, a) =>
      && i < |w.peers| && |x.peers| == |w.peers|
      && Acts(a, w.store, w.peers[i], x.store, x.peers[i])
      && x.peers == w.peers[i := x.peers[i]]
  }

  ghost predicate History(worlds: seq<World>, moves: seq<Move>) {
    && |worlds| == |moves| + 1
    && WorldInv(worlds[0])
    && forall k {:trigger moves[k]} :: 0 <= k < |moves| && Inv(worlds[k].store) ==>
         Moves(moves[k], worlds[k], worlds[k + 1])
  }

  lemma MoveKeeps(m: Move, w: World, x: World)
    requires WorldInv(w) && Moves(m, w, x)
    ensures WorldInv(x) && Descends(w.store, x.store) && |x.peers| == |w.peers|
    ensures forall i :: 0 <= i < |w.peers| && !(m.Local? && m.i == i && m.action.Restart?) ==>
              Advances(x.store, w.peers[i].accepted, x.peers[i].accepted)
  {
    if m.Elsewhere? {
      StepDescends(w.store, x.store);
    } else {
      ActKeeps(m.action, w.store, w.peers[m.i], x.store, x.peers[m.i]);
    }
    forall i | 0 <= i < |w.peers|
      ensures PeerInv(x.store, x.peers[i])
      ensures !(m.Local? && m.i == i && m.action.Restart?) ==>
                Advances(x.store, w.peers[i].accepted, x.peers[i].accepted)
    {
      if !(m.Local? && m.i == i) {
        PeerInvStable(w.store, x.store, w.peers[i]);
        AcceptedStays(x.store, w.peers[i]);
      }
    }
  }

  lemma {:induction false} HistoryKeeps(worlds: seq<World>, moves: seq<Move>, k: nat)
    requires History(worlds, moves) && k <= |moves|
    ensures WorldInv(worlds[k]) && |worlds[k].peers| == |worlds[0].peers|
  {
    if k > 0 {
      HistoryKeeps(worlds, moves, k - 1);
      MoveKeeps(moves[k - 1], worlds[k - 1], worlds[k]);
    }
  }

  /** Over every run, what a process has accepted only moves forward along HEAD's
      ancestry until that process restarts. */
  lemma {:induction false} AcceptedOnlyMovesForward(worlds: seq<World>, moves: seq<Move>, i: nat, lo: nat, hi: nat)
    requires History(worlds, moves) && lo <= hi <= |moves| && i < |worlds[0].peers|
    requires forall k :: lo <= k < hi ==> !(moves[k].Local? && moves[k].i == i && moves[k].action.Restart?)
    ensures WorldInv(worlds[lo]) && WorldInv(worlds[hi])
    ensures |worlds[lo].peers| == |worlds[hi].peers| == |worlds[0].peers|
    ensures Descends(worlds[lo].store, worlds[hi].store)
    ensures Advances(worlds[hi].store, worlds[lo].peers[i].accepted, worlds[hi].peers[i].accepted)
    decreases hi
  {
    hide Descends, Advances, PeerInv, Acts;
    HistoryKeeps(worlds, moves, lo);
    HistoryKeeps(worlds, moves, hi);
    if lo == hi {
      SameDescends(worlds[hi].store);
      AcceptedStays(worlds[hi].store, worlds[hi].peers[i]);
    } else {
      var last := hi - 1;
      AcceptedOnlyMovesForward(worlds, moves, i, lo, last);
      assert Moves(moves[last], worlds[last], worlds[hi]);
      MoveKeeps(moves[last], worlds[last], worlds[hi]);
      DescendsTransitive(worlds[lo].store, worlds[last].store, worlds[hi].store);
      AdvancesTransitive(worlds[last].store, worlds[hi].store, worlds[lo].peers[i].accepted,
                         worlds[last].peers[i].accepted, worlds[hi].peers[i].accepted);
    }
  }

  lemma AdvancesTransitive(s: Store, t: Store, was: Option<Snapshot>, mid: Option<Snapshot>, now: Option<Snapshot>)
    requires Descends(s, t) && Advances(s, was, mid) && Advances(t, mid, now)
    ensures Advances(t, was, now)
  {
    if was.Some? {
      AncestorPreserved(s.objects, t.objects, was.value.digest, mid.value.digest);
      AncestorTransitive(t.objects, was.value.digest, mid.value.digest, now.value.digest);
    }
  }

  lemma MoveTakesEditOnlyWithCause(m: Move, w: World, x: World, i: nat, name: Name)
    requires WorldInv(w) && Moves(m, w, x) && i < |w.peers| == |x.peers|
    requires Lookup(w.peers[i].staged, name).Some? && Lookup(x.peers[i].staged, name) != Lookup(w.peers[i].staged, name)
    ensures m.Local? && m.i == i && Leaves(m.action, x.peers[i], name, w.peers[i].staged[name])
  {
    assert m.Local? && m.i == i;
    EditLeavesOnlyWithCause(m.action, w.store, w.peers[i], x.store, x.peers[i], name);
  }

  /** Move `k` of process `i` is what took the edit away. */
  ghost predicate TakenAt(worlds: seq<World>, moves: seq<Move>, i: nat, k: nat, name: Name, value: Value) {
    && k < |moves| && k + 1 < |worlds| && moves[k].Local? && moves[k].i == i
    && i < |worlds[k + 1].peers|
    && Leaves(moves[k].action, worlds[k + 1].peers[i], name, value)
  }

  /** Over every run, a staged edit that is gone went with a cause: some step of its own
      process discarded it, restarted, replaced it, or accepted a revision carrying it. */
  lemma {:induction false} StagedEditsSurvive(worlds: seq<World>, moves: seq<Move>, i: nat, name: Name,
                                              lo: nat, hi: nat)
    returns (cause: nat)
    requires History(worlds, moves) && lo <= hi <= |moves|
    requires i < |worlds[0].peers| == |worlds[lo].peers| == |worlds[hi].peers|
    requires name in worlds[lo].peers[i].staged
    requires Lookup(worlds[hi].peers[i].staged, name) != Lookup(worlds[lo].peers[i].staged, name)
    ensures lo <= cause < hi && TakenAt(worlds, moves, i, cause, name, worlds[lo].peers[i].staged[name])
    decreases hi
  {
    assert lo < hi;
    HistoryKeeps(worlds, moves, hi - 1);
    if Lookup(worlds[hi - 1].peers[i].staged, name) == Lookup(worlds[lo].peers[i].staged, name) {
      cause := hi - 1;
      assert Moves(moves[cause], worlds[cause], worlds[hi]);
      MoveTakesEditOnlyWithCause(moves[cause], worlds[cause], worlds[hi], i, name);
    } else {
      cause := StagedEditsSurvive(worlds, moves, i, name, lo, hi - 1);
    }
  }

  /** What may take a staged cadence away: a discard, a restart, a later cadence, or the
      revision that carries it. */
  ghost predicate CadenceLeaves(a: Action, q: Peer, seconds: int) {
    a.Discard? || a.Restart? || a.SetCadence?
    || (q.accepted.Some? && q.accepted.value.record.settings.cadence == seconds)
  }

  lemma CadenceLeavesOnlyWithCause(a: Action, s: Store, p: Peer, t: Store, q: Peer)
    requires PeerInv(s, p) && Acts(a, s, p, t, q)
    requires p.stagedCadence.Some? && q.stagedCadence != p.stagedCadence
    ensures CadenceLeaves(a, q, p.stagedCadence.value)
  {
    match a
    case Reload(seen) => ReloadKeeps(s, p, seen);
    case Request(transaction, message, refused, seen) =>
      if !refused { AskKeeps(s, p, transaction, message, seen); }
    case _ =>
  }

  /** Move `k` of process `i` is what took the cadence away. */
  ghost predicate CadenceTakenAt(worlds: seq<World>, moves: seq<Move>, i: nat, k: nat, seconds: int) {
    && k < |moves| && k + 1 < |worlds| && moves[k].Local? && moves[k].i == i
    && i < |worlds[k + 1].peers|
    && CadenceLeaves(moves[k].action, worlds[k + 1].peers[i], seconds)
  }

  lemma MoveTakesCadenceOnlyWithCause(m: Move, w: World, x: World, i: nat)
    requires WorldInv(w) && Moves(m, w, x) && i < |w.peers| == |x.peers|
    requires w.peers[i].stagedCadence.Some? && x.peers[i].stagedCadence != w.peers[i].stagedCadence
    ensures m.Local? && m.i == i && CadenceLeaves(m.action, x.peers[i], w.peers[i].stagedCadence.value)
  {
    assert m.Local? && m.i == i;
    CadenceLeavesOnlyWithCause(m.action, w.store, w.peers[i], x.store, x.peers[i]);
  }

  /** The same over every run for a staged cadence. */
  lemma {:induction false} StagedCadenceSurvives(worlds: seq<World>, moves: seq<Move>, i: nat, lo: nat, hi: nat)
    returns (cause: nat)
    requires History(worlds, moves) && lo <= hi <= |moves|
    requires i < |worlds[0].peers| == |worlds[lo].peers| == |worlds[hi].peers|
    requires worlds[lo].peers[i].stagedCadence.Some?
    requires worlds[hi].peers[i].stagedCadence != worlds[lo].peers[i].stagedCadence
    ensures lo <= cause < hi && CadenceTakenAt(worlds, moves, i, cause, worlds[lo].peers[i].stagedCadence.value)
    decreases hi
  {
    assert lo < hi;
    HistoryKeeps(worlds, moves, hi - 1);
    if worlds[hi - 1].peers[i].stagedCadence == worlds[lo].peers[i].stagedCadence {
      cause := hi - 1;
      assert Moves(moves[cause], worlds[cause], worlds[hi]);
      MoveTakesCadenceOnlyWithCause(moves[cause], worlds[cause], worlds[hi], i);
    } else {
      cause := StagedCadenceSurvives(worlds, moves, i, lo, hi - 1);
    }
  }

  /** Where a request leaves the staged edit `name` of a frozen process: as it was, or
      gone with a revision that fulfils the freeze, at its captured version. */
  ghost predicate Settled(p: Peer, q: Peer, seen: Observation, name: Name)
    requires p.pending.Some? && name in p.staged
  {
    if name in q.staged then q.staged[name] == p.staged[name]
    else
      && seen.loaded.Ok? && seen.loaded.value.Some?
      && Fulfils(p.pending.value, seen.loaded.value.value.record)
      && Lookup(p.versions, name) == Lookup(p.pending.value.versions, name)
      && Landed(seen.loaded.value, name, p.staged[name])
  }

  lemma ReloadSettles(p: Peer, seen: Observation, name: Name)
    requires FreezeInv(p) && p.uncertain.None? && p.pending.Some? && name in p.staged
    ensures Settled(p, ReloadEdit(p, seen).0, seen, name)
  {
    if seen.loaded.Ok? {
      ReconcileDropsOnlyLandedEdits(p, seen.loaded.value);
    }
  }

  lemma AbortSettles(p: Peer, intent: Option<Digest>, seen: Observation, name: Name)
    requires FreezeInv(p) && p.uncertain.None? && p.pending.Some? && name in p.staged
    ensures Settled(p, AbortEdits(p, intent, seen).0, seen, name)
  {
    if seen.loaded.Ok? {
      ReconcileDropsOnlyLandedEdits(p, seen.loaded.value);
    }
  }

  lemma FinishSettles(p: Peer, digest: Option<Digest>, seen: Observation, name: Name)
    requires FreezeInv(p) && p.uncertain.None? && p.pending.Some? && name in p.staged
    ensures Settled(p, FinishEdits(p, digest, seen).0, seen, name)
  {
    if p.pending.value.proposal.None? {
      assert ReloadEdit(p.(pending := None), seen).0.staged == p.staged;
    } else {
      ReloadSettles(p, seen, name);
    }
  }

  lemma AskSettles(p: Peer, transaction: nat, message: Message, intent: Option<Digest>, seen: Observation, name: Name)
    requires FreezeInv(p) && p.uncertain.None? && p.pending.Some? && name in p.staged
    ensures Settled(p, Ask(p, transaction, message, intent, seen).0, seen, name)
  {
    match message
    case Capture => ReloadSettles(p, seen, name);
    case Prepare(_) =>
    case Abort => AbortSettles(p, intent, seen, name);
    case Finish(digest) => FinishSettles(p, digest, seen, name);
  }

  /** An edit staged after capture survives whatever the coordinator then asks, with the
      value it was staged with. */
  lemma LaterEditsSurviveRequests(s: Store, p: Peer, transaction: nat, message: Message, seen: Observation, name: Name)
    requires PeerInv(s, p) && p.pending.Some?
    requires name in p.staged && Lookup(p.versions, name) != Lookup(p.pending.value.versions, name)
    ensures var q := Ask(p, transaction, message, IntentDigest(s), seen).0;
            name in q.staged && q.staged[name] == p.staged[name]
  {
    AskSettles(p, transaction, message, IntentDigest(s), seen, name);
  }

  /** A captured edit is dropped only with HEAD itself: a child of the captured base that
      carries this transaction and exactly the prepared proposal. */
  lemma DroppedEditIsInHead(s: Store, p: Peer, transaction: nat, message: Message, seen: Observation, name: Name)
    requires PeerInv(s, p) && p.pending.Some?
    requires Observes(s, if message.Abort? then None else p.accepted, seen)
    requires name in p.staged && name !in Ask(p, transaction, message, IntentDigest(s), seen).0.staged
    ensures Delivers(p.pending.value, HeadSnapshot(s))
    ensures Lookup(p.versions, name) == Lookup(p.pending.value.versions, name)
    ensures Landed(HeadSnapshot(s), name, p.staged[name])
  {
    AskSettles(p, transaction, message, IntentDigest(s), seen, name);
    ReadAdvances(s, if message.Abort? then None else p.accepted, seen);
  }
}
