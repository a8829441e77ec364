/** A runtime's accepted snapshot and staged edits, and the participant that serves it. */
module ConfigurationRuntimes {
  import opened Wrappers
  import opened LiveConfiguration
  import opened ConfigurationStores
  import opened ConfigurationPeers

  class ConfigurationRuntime {
    const store: ConfigurationStore
    const owners: set<Name>
    var provenance: Provenance
    var accepted: Option<Snapshot>
    var uncertain: Option<Digest>
    var staged: map<Name, Value>
    var stagedVersions: map<Name, nat>
    var stagedCadence: Option<int>
    var cadenceVersion: nat
    var sequence: nat
    var participant: ConfigurationParticipant?

    ghost function Model(): Peer
      reads this, participant
    {
      Peer(owners, provenance, accepted, uncertain, staged, stagedVersions, stagedCadence,
           cadenceVersion, sequence, if participant == null then None else participant.pending)
    }

    ghost predicate Valid()
      reads this, participant, store
    {
      && (participant != null ==> participant.runtime == this)
      && store.Valid()
      && PeerInv(store.State(), Model())
    }

    constructor (store: ConfigurationStore, owners: set<Name>, provenance: Provenance)
      requires store.Valid()
      ensures Valid() && this.store == store && participant == null
      ensures Model() == Newborn(owners, provenance)
    {
      this.store, this.owners, this.provenance := store, owners, provenance;
      accepted, uncertain := None, None;
      staged, stagedVersions := map[], map[];
      stagedCadence, cadenceVersion, sequence := None, 0, 0;
      participant := null;
    }

    method Stage(name: Name, value: Value, calm: bool) returns (res: Result<(), Error>)
      requires Valid()
      modifies this
      ensures Valid() && participant == old(participant)
      ensures exists valid :: (Model(), res) == StageEdit(old(Model()), name, value, valid)
      ensures calm ==> (res.Ok? <==> name in owners && uncertain.None?)
    {
      hide PeerInv, Run, Inv;
      var valid: bool := *;
      valid := valid || calm;
      ghost var p := Model();
      StageKeeps(store.State(), p, name, value, valid);
      if name !in owners || !valid {
        res := Fail(Invalid);
      } else if uncertain.Some? {
        res := Fail(Pending);
      } else {
        staged := staged[name := value];
        sequence := sequence + 1;
        stagedVersions := stagedVersions[name := sequence];
        res := Ok(());
      }
      assert (Model(), res) == StageEdit(p, name, value, valid);
    }

    method StageCadenceSeconds(seconds: int) returns (res: Result<(), Error>)
      requires Valid()
      modifies this
      ensures Valid() && participant == old(participant)
      ensures (Model(), res) == StageCadence(old(Model()), seconds)
    {
      hide PeerInv, Run, Inv;
      CadenceKeeps(store.State(), Model(), seconds);
      if !(1 <= seconds <= 3600) {
        return Fail(Invalid);
      }
      if uncertain.Some? {
        return Fail(Pending);
      }
      stagedCadence := Some(seconds);
      sequence := sequence + 1;
      cadenceVersion := sequence;
      return Ok(());
    }

    method Reload(calm: bool) returns (res: Result<Option<Snapshot>, Error>, ghost seen: Observation)
      requires Valid()
      modifies this, participant
      ensures Valid() && participant == old(participant)
      ensures Observes(store.State(), old(accepted), seen)
      ensures calm ==> seen == CalmReading(store.State(), old(accepted))
      ensures (Model(), res) == ReloadEdit(old(Model()), seen)
      ensures res.Ok? ==> accepted == res.value == HeadSnapshot(store.State())
      ensures old(Model()).pending.None? ==> Model().pending.None?
    {
      var fault := Chance(calm);
      var loaded := store.Load(Floor(accepted), DigestOf(accepted), fault);
      var valid: bool := *;
      valid := valid || calm;
      seen := Observation(loaded, valid);
      ReloadKeeps(store.State(), Model(), seen);
      if loaded.Err? {
        return Fail(loaded.error), seen;
      }
      var snapshot := loaded.value;
      if snapshot.Some? && !(owners <= snapshot.value.record.settings.values.Keys) {
        return Fail(Incomplete), seen;
      }
      if snapshot.Some? && !valid {
        return Fail(Invalid), seen;
      }
      res := Accept(snapshot);
    }

    /** Take a validated snapshot, unless proposals made over another revision would be lost. */
    method Accept(snapshot: Option<Snapshot>) returns (res: Result<Option<Snapshot>, Error>)
      requires participant != null ==> participant.runtime == this
      requires FreezeInv(Model())
      modifies this, participant
      ensures participant == old(participant)
      ensures (Model(), res) == AcceptSnapshot(old(Model()), snapshot)
    {
      var was, now := DigestOf(accepted), DigestOf(snapshot);
      var aggregated := false;
      if participant != null {
        aggregated := participant.Reconcile(snapshot);
      }
      if (staged != map[] || stagedCadence.Some?) && now != was && now != uncertain && !aggregated {
        return Fail(Conflict);
      }
      if uncertain.Some? && now == uncertain {
        staged := map[];
        stagedCadence, uncertain := None, None;
      }
      accepted := snapshot;
      res := Ok(snapshot);
    }

    method DiscardStaged(calm: bool) returns (res: Result<Option<Snapshot>, Error>)
      requires Valid()
      modifies this, participant
      ensures Valid() && participant == old(participant)
      ensures exists seen :: Observes(store.State(), old(accepted), seen)
                && (Model(), res) == DiscardEdits(old(Model()), seen)
    {
      ghost var p := Model();
      if uncertain.Some? || (participant != null && participant.pending.Some?) {
        ghost var any := Observation(Err(Busy), true);
        assert (Model(), Fail<Option<Snapshot>>(Pending)) == DiscardEdits(p, any);
        return Fail(Pending);
      }
      staged := map[];
      stagedCadence := None;
      ghost var seen;
      res, seen := Reload(calm);
      assert (Model(), res) == DiscardEdits(p, seen);
    }

    /** Sign and publish the staged edits, or finish the one uncertain candidate. */
    method Persist(authorized: bool, calm: bool) returns (outcome: Result<Snapshot, Error>)
      requires Valid() && Flushable(Model())
      modifies this, store
      ensures Valid() && participant == old(participant) && old(store.history) <= store.history
      ensures Model() == AfterPersist(old(Model()), outcome)
      ensures Persisted(old(store.State()), old(Model()), store.State(), outcome)
      ensures Descends(old(store.State()), store.State())
      ensures outcome.Ok? ==> HeadDigest(store.State()) == Some(outcome.value.digest)
      ensures !authorized ==> store.State() == old(store.State())
      ensures outcome.Ok? && old(uncertain).None? ==>
                Signs(outcome.value.record, old(Model())) && HeadSnapshot(store.State()) == Some(outcome.value)
                && owners <= outcome.value.record.settings.values.Keys
      ensures outcome.Ok? && old(uncertain).Some? ==> Some(outcome.value.digest) == old(uncertain)
      ensures calm && authorized && old(uncertain).None? ==>
                (outcome.Ok? <==> old(Publishable(store.State(), Model())))
      ensures calm && authorized && old(uncertain).Some? ==>
                (outcome.Ok? <==> RecoverRefusal(old(store.State()), old(uncertain)).None?)
      ensures old(uncertain).None? ==> Remembered(old(store.State()), store.State(), Model())
      ensures old(uncertain).None? && store.State() != old(store.State()) ==> uncertain.Some?
    {
      hide Signs, Publishable, FlushRequest, Run, Remembered, PeerInv, Persisted, HeadSnapshot, RecoverRefusal,
        Descends, Flushable, HeadDigest;
      ghost var before := store.State();
      ghost var p := Model();
      outcome := Dispatch(authorized, calm);
      PersistKeeps(before, p, store.State(), outcome);
      if uncertain.None? {
        FlushSigns(before, p, store.State(), outcome);
        PersistRemembers(before, p, store.State(), outcome);
      }
      Remember(outcome);
    }

    /** Hold the candidate until a reload shows it as HEAD. */
    method Remember(outcome: Result<Snapshot, Error>)
      modifies this`uncertain
      ensures Model() == AfterPersist(old(Model()), outcome)
    {
      if outcome.Ok? {
        uncertain := Some(outcome.value.digest);
      } else if outcome.error.code == Uncertain {
        uncertain := outcome.error.candidate;
      }
    }

    method Dispatch(authorized: bool, calm: bool) returns (outcome: Result<Snapshot, Error>)
      requires Valid() && Flushable(Model())
      modifies store
      ensures store.Valid() && old(store.history) <= store.history
      ensures Persisted(old(store.State()), Model(), store.State(), outcome)
      ensures !authorized ==> store.State() == old(store.State())
      ensures outcome.Ok? && uncertain.None? ==> owners <= outcome.value.record.settings.values.Keys
      ensures outcome.Ok? && uncertain.Some? ==> Some(outcome.value.digest) == uncertain
      ensures calm && authorized && uncertain.None? ==> (outcome.Ok? <==> old(Publishable(store.State(), Model())))
      ensures calm && authorized && uncertain.Some? ==>
                (outcome.Ok? <==> RecoverRefusal(old(store.State()), uncertain).None?)
    {
      hide RecoverRefusal, RecoverOutcome, CommitOutcome, Run, PeerInv, Publishable;
      if uncertain.None? {
        outcome := DispatchCommit(authorized, calm);
      } else {
        ghost var before := store.State();
        outcome := store.Recover(uncertain, authorized, calm);
        RecoveredIsNamed(before, store.State(), uncertain, outcome);
      }
    }

    method DispatchCommit(authorized: bool, calm: bool) returns (outcome: Result<Snapshot, Error>)
      requires Valid() && uncertain.None?
      modifies store
      ensures store.Valid() && old(store.history) <= store.history
      ensures CommitOutcome(old(store.State()), store.State(), FlushRequest(Model()), outcome)
      ensures !authorized ==> store.State() == old(store.State())
      ensures outcome.Ok? ==> owners <= outcome.value.record.settings.values.Keys
      ensures calm && authorized ==> (outcome.Ok? <==> old(Publishable(store.State(), Model())))
    {
      hide CommitReached, Run, PeerInv, CommitRefusal, Records, HeadSnapshot, Descends;
      var values := if accepted.None? then map[] else accepted.value.record.settings.values;
      var cadence := if stagedCadence.Some? then stagedCadence.value
                     else if accepted.None? then 60 else accepted.value.record.settings.cadence;
      values := values + staged;
      if !(owners <= values.Keys) {
        return Fail(Incomplete);
      }
      var fault := Chance(calm);
      if fault.Some? {
        return Fail(fault.value);
      }
      ghost var before := store.State();
      var request := Request(Projection(values, cadence, map[]), DigestOf(accepted), true, Some(provenance));
      outcome := store.Commit(request, authorized, calm);
      CommittedHolds(before, store.State(), request, outcome);
    }

    method Flush(authorized: bool, calm: bool) returns (res: Result<Option<Snapshot>, Error>)
      requires Valid()
      modifies this, participant, store
      ensures Valid() && participant == old(participant)
      ensures Descends(old(store.State()), store.State())
      ensures res.Ok? ==> accepted == res.value == HeadSnapshot(store.State())
      ensures Model().pending.Some? ==> res.Err? && store.State() == old(store.State())
      ensures !authorized ==> store.State() == old(store.State())
      ensures res.Ok? && old(Flushable(Model())) ==> Flushed(old(Model()), Model())
      ensures res.Ok? && old(Flushable(Model())) && old(uncertain).None? ==> Signs(accepted.value.record, old(Model()))
      ensures res.Ok? && old(Flushable(Model())) && old(uncertain).Some? ==> DigestOf(accepted) == old(uncertain)
      ensures old(Clean(Model())) && old(uncertain).None? ==> store.State() == old(store.State())
      ensures calm && authorized && old(Flushable(Model())) && old(uncertain).None? ==>
                (res.Ok? <==> old(Publishable(store.State(), Model())))
      ensures old(uncertain).None? ==> Remembered(old(store.State()), store.State(), Model())
      ensures calm && authorized && old(Flushable(Model())) && old(uncertain).Some? ==>
                (res.Ok? <==> old(Recovers(store.State(), Model())))
      ensures calm && old(Model()).pending.None? && old(uncertain).None? && old(Clean(Model())) ==>
                res == old(CalmReload(store.State(), Model())).1
      ensures calm && authorized && old(Model()).pending.Some? ==>
                var (q, loaded) := old(CalmReload(store.State(), Model()));
                res.Ok? <==> loaded.Ok? && q.pending.None? && (Clean(q) || Publishable(old(store.State()), q))
    {
      hide Run, Descends, Flushed, Signs, Publishable, PeerInv, ReloadEdit, Remembered, Recovers;
      SameDescends(store.State());
      if participant != null && participant.pending.Some? {
        PendingIsCertain(store.State(), Model());
        res := ResolvePending(calm);
        NothingWritten(store.State(), Model());
        if res.Err? {
          return;
        }
      }
      if staged == map[] && stagedCadence.None? && uncertain.None? {
        ghost var seen;
        res, seen := Reload(calm);
        NothingWritten(store.State(), Model());
      } else {
        ghost var outcome;
        res, outcome := FlushEdits(authorized, calm);
      }
    }

    /** A reload may deliver the freeze; otherwise the flush has to wait for it. */
    method ResolvePending(calm: bool) returns (res: Result<Option<Snapshot>, Error>)
      requires Valid() && Model().pending.Some?
      modifies this, participant
      ensures Valid() && participant == old(participant)
      ensures res.Ok? ==> Model().pending.None?
      ensures calm ==>
                && Model() == CalmReload(store.State(), old(Model())).0
                && (res.Ok? <==> CalmReload(store.State(), old(Model())).1.Ok? && Model().pending.None?)
      ensures calm && res.Ok? && Clean(Model()) ==> CalmReload(store.State(), Model()).1.Ok?
      ensures old(uncertain).None? ==> uncertain.None? && (old(Clean(Model())) ==> Clean(Model()))
    {
      hide Run;
      ghost var p := Model();
      ghost var seen;
      res, seen := Reload(calm);
      ReloadStaysClean(p, seen);
      ReloadHolds(p, seen);
      if calm && res.Ok? && Clean(Model()) {
        CleanReloads(store.State(), p);
      }
      if res.Ok? && participant.pending.Some? {
        return Fail(Pending);
      }
    }

    method FlushEdits(authorized: bool, calm: bool)
      returns (res: Result<Option<Snapshot>, Error>, ghost outcome: Result<Snapshot, Error>)
      requires Valid() && Flushable(Model())
      modifies this, participant, store
      ensures Valid() && participant == old(participant)
      ensures Descends(old(store.State()), store.State())
      ensures Model().pending.None?
      ensures Persisted(old(store.State()), old(Model()), store.State(), outcome)
      ensures res.Ok? ==> accepted == res.value == HeadSnapshot(store.State())
      ensures !authorized ==> store.State() == old(store.State())
      ensures res.Ok? ==> Flushed(old(Model()), Model())
      ensures res.Ok? && old(uncertain).None? ==> Signs(accepted.value.record, old(Model()))
      ensures res.Ok? && old(uncertain).Some? ==> DigestOf(accepted) == old(uncertain)
      ensures calm && authorized && old(uncertain).None? ==> (res.Ok? <==> old(Publishable(store.State(), Model())))
      ensures old(uncertain).None? ==> Remembered(old(store.State()), store.State(), Model())
      ensures calm && authorized && old(uncertain).Some? ==> (res.Ok? <==> old(Recovers(store.State(), Model())))
    {
      hide Run, Descends, Persisted, Signs, Publishable, RecoverRefusal;
      ghost var s, before := store.State(), Model();
      var persisted := Persist(authorized, calm);
      outcome := persisted;
      if persisted.Err? {
        return Err(persisted.error), outcome;
      }
      if before.uncertain.Some? {
        RecoveredRecord(s, store.State(), before.uncertain.value);
      }
      res := Reread(calm);
    }

    /** Re-read the complete signed revision after persistence. */
    method Reread(calm: bool) returns (res: Result<Option<Snapshot>, Error>)
      requires Valid() && Model().pending.None? && uncertain.Some? && uncertain == HeadDigest(store.State())
      modifies this, participant
      ensures Valid() && participant == old(participant) && Model().pending.None?
      ensures res.Ok? ==> accepted == res.value == HeadSnapshot(store.State())
      ensures res.Ok? ==> Flushed(old(Model()), Model())
      ensures uncertain == old(uncertain) || (uncertain.None? && DigestOf(accepted) == old(uncertain))
      ensures calm ==> (res.Ok? <==> owners <= HeadSnapshot(store.State()).value.record.settings.values.Keys)
    {
      ghost var persisted := Model();
      ghost var seen;
      res, seen := Reload(calm);
      if seen.loaded.Ok? {
        ReadAdvances(store.State(), persisted.accepted, seen);
      }
      CalmReads(store.State(), persisted.accepted);
      FlushLands(persisted, seen);
      ReloadHolds(persisted, seen);
    }
  }

  class ConfigurationParticipant {
    const runtime: ConfigurationRuntime
    var pending: Option<Freeze>

    constructor (runtime: ConfigurationRuntime)
      requires runtime.Valid() && runtime.participant == null
      modifies runtime
      ensures this.runtime == runtime && runtime.participant == this && runtime.Valid()
      ensures runtime.Model() == old(runtime.Model())
    {
      this.runtime, pending := runtime, None;
      new;
      runtime.participant := this;
    }

    method Reconcile(snapshot: Option<Snapshot>) returns (aggregated: bool)
      requires runtime.participant == this
      requires FreezeInv(runtime.Model())
      modifies this, runtime`staged, runtime`stagedCadence
      ensures (runtime.Model(), aggregated) == ConfigurationPeers.Reconcile(old(runtime.Model()), snapshot)
    {
      if pending.None? || snapshot.None? || !Fulfils(pending.value, snapshot.value.record) {
        return false;
      }
      var f := pending.value;
      var todo := f.values.Keys;
      ghost var before := runtime.staged;
      while todo != {}
        invariant todo <= f.values.Keys && pending == Some(f)
        invariant forall name :: name in runtime.staged <==>
                    && name in before
                    && !(name in f.values && name !in todo
                         && Lookup(runtime.stagedVersions, name) == Lookup(f.versions, name))
        invariant forall name :: name in runtime.staged ==> runtime.staged[name] == before[name]
        invariant runtime.Model() == old(runtime.Model()).(staged := runtime.staged)
        decreases todo
      {
        var name :| name in todo;
        if Lookup(runtime.stagedVersions, name) == Lookup(f.versions, name) {
          runtime.staged := runtime.staged - {name};
        }
        todo := todo - {name};
      }
      if runtime.cadenceVersion == f.cadenceVersion {
        runtime.stagedCadence := None;
      }
      pending := None;
      aggregated := true;
      assert runtime.staged == ConfigurationPeers.Reconcile(old(runtime.Model()), snapshot).0.staged;
    }

    /** One request, from a coordinator this process admitted. */
    method Request(transaction: nat, message: Message, calm: bool) returns (res: Result<Reply, Error>)
      requires runtime.Valid() && runtime.participant == this
      modifies this, runtime
      ensures runtime.Valid() && runtime.participant == this
      ensures Asked(runtime.store.State(), old(runtime.Model()), transaction, message, runtime.Model(), res)
      ensures calm ==>
                (runtime.Model(), res)
                == Ask(old(runtime.Model()), transaction, message, IntentDigest(runtime.store.State()),
                       CalmReading(runtime.store.State(), if message.Abort? then None else old(runtime.accepted)))
      ensures res.Ok? && message.Finish? && old(pending).Some? && old(pending).value.proposal.Some? ==>
                HandedOver(old(pending).value, old(runtime.Model()), runtime.Model())
                && DigestOf(runtime.accepted) == message.digest
      ensures res.Ok? && message.Abort? && runtime.store.intent.Some? ==>
                HeadDigest(runtime.store.State()) == Some(runtime.store.intent.value.candidate)
    {
      // The runtime's lock, its authority, and the shape of the request.
      var fault := Chance(calm);
      if fault.Some? {
        return Fail(fault.value);
      }
      ghost var p := runtime.Model();
      ghost var s := runtime.store.State();
      ghost var seen: Observation;
      if message.Capture? {
        res, seen := CaptureStaged(transaction, calm);
      } else if pending.None? && message.Finish? {
        res, seen := ConfirmFinished(transaction, message.digest, calm);
      } else if pending.None? || pending.value.transaction != transaction {
        return Fail(Pending);
      } else {
        match message
        case Prepare(proposal) =>
          res, seen := AcceptProposal(proposal, calm);
        case Abort =>
          res, seen := Release(calm);
        case Finish(digest) =>
          res, seen := Complete(digest, calm);
      }
      AskKeeps(s, p, transaction, message, seen);
      assert AskedSeeing(s, p, transaction, message, runtime.Model(), res, seen);
      if res.Ok? && message.Finish? && p.pending.Some? && p.pending.value.proposal.Some? {
        FinishLands(s, p, transaction, message.digest, runtime.Model(), res);
      }
    }

    method CaptureStaged(transaction: nat, calm: bool) returns (res: Result<Reply, Error>, ghost seen: Observation)
      requires runtime.Valid() && runtime.participant == this
      modifies this, runtime
      ensures runtime.participant == this
      ensures Observes(runtime.store.State(), old(runtime.accepted), seen)
      ensures (runtime.Model(), res) == CaptureEdits(old(runtime.Model()), transaction, seen)
      ensures calm ==> seen == CalmReading(runtime.store.State(), old(runtime.accepted))
    {
      var loaded;
      // Observation may resolve a previous lost acknowledgement; it never publishes.
      loaded, seen := runtime.Reload(calm);
      if loaded.Err? {
        return Err(loaded.error), seen;
      }
      if pending.Some? || runtime.uncertain.Some? {
        return Fail(Pending), seen;
      }
      var base := DigestOf(loaded.value);
      pending := Some(Freeze(transaction, base, None, runtime.stagedVersions, runtime.cadenceVersion,
                             runtime.staged, runtime.stagedCadence));
      res := Ok(Captured(base, runtime.owners, runtime.staged, runtime.stagedCadence));
    }

    method ConfirmFinished(transaction: nat, digest: Option<Digest>, calm: bool)
      returns (res: Result<Reply, Error>, ghost seen: Observation)
      requires runtime.Valid() && runtime.participant == this && pending.None?
      modifies this, runtime
      ensures runtime.participant == this
      ensures Observes(runtime.store.State(), old(runtime.accepted), seen)
      ensures (runtime.Model(), res)
           == Ask(old(runtime.Model()), transaction, Finish(digest), IntentDigest(runtime.store.State()), seen)
      ensures calm ==> seen == CalmReading(runtime.store.State(), old(runtime.accepted))
    {
      var loaded;
      loaded, seen := runtime.Reload(calm);
      if loaded.Err? {
        return Err(loaded.error), seen;
      }
      var snapshot := loaded.value;
      if snapshot.Some? && DigestOf(snapshot) == digest && snapshot.value.record.provenance.Some?
         && snapshot.value.record.provenance.value.operation == Token(transaction) {
        return Ok(Finished(digest)), seen;
      }
      return Fail(Pending), seen;
    }

    method AcceptProposal(proposal: Projection, calm: bool)
      returns (res: Result<Reply, Error>, ghost seen: Observation)
      requires runtime.Valid() && runtime.participant == this && pending.Some?
      modifies this
      ensures runtime.participant == this
      ensures Observes(runtime.store.State(), runtime.accepted, seen)
      ensures (runtime.Model(), res) == PrepareEdits(old(runtime.Model()), proposal, seen.valid)
      ensures calm ==> seen.valid
    {
      var f := pending.value;
      var valid: bool := *;
      valid := valid || calm;
      seen := Observation(Err(Busy), valid);
      if !(1 <= proposal.cadence <= 3600) {
        return Fail(Invalid), seen;
      }
      if !(runtime.owners <= proposal.values.Keys) {
        return Fail(Incomplete), seen;
      }
      if !valid {
        return Fail(Invalid), seen;
      }
      if !Honours(proposal, f.values, f.cadence) {
        return Fail(Conflict), seen;
      }
      if f.proposal.Some? && f.proposal.value != proposal {
        return Fail(Conflict), seen;
      }
      pending := Some(f.(proposal := Some(proposal)));
      res := Ok(Prepared(proposal));
    }

    method Release(calm: bool) returns (res: Result<Reply, Error>, ghost seen: Observation)
      requires runtime.Valid() && runtime.participant == this && pending.Some?
      modifies this, runtime
      ensures runtime.participant == this
      ensures Observes(runtime.store.State(), None, seen)
      ensures (runtime.Model(), res) == AbortEdits(old(runtime.Model()), IntentDigest(runtime.store.State()), seen)
      ensures calm ==> seen == CalmReading(runtime.store.State(), None)
      ensures res.Ok? && runtime.store.intent.Some? ==>
                HeadDigest(runtime.store.State()) == Some(runtime.store.intent.value.candidate)
    {
      var fault := Chance(calm);
      var loaded := runtime.store.Load(0, None, fault);
      var valid: bool := *;
      valid := valid || calm;
      seen := Observation(loaded, valid);
      if loaded.Err? {
        return Fail(loaded.error), seen;
      }
      var current := loaded.value;
      var intent := runtime.store.intent;
      if intent.Some? && Some(intent.value.candidate) != DigestOf(current) {
        return Err(Error(Pending, Some(intent.value.candidate))), seen;
      }
      if current.Some? && !(runtime.owners <= current.value.record.settings.values.Keys) {
        return Fail(Incomplete), seen;
      }
      if current.Some? && !valid {
        return Fail(Invalid), seen;
      }
      var aggregated := Reconcile(current);
      if aggregated {
        runtime.accepted := current;
      }
      pending := None;
      res := Ok(Aborted);
    }

    method Complete(digest: Option<Digest>, calm: bool) returns (res: Result<Reply, Error>, ghost seen: Observation)
      requires runtime.Valid() && runtime.participant == this && pending.Some?
      modifies this, runtime
      ensures runtime.participant == this
      ensures Observes(runtime.store.State(), old(runtime.accepted), seen)
      ensures (runtime.Model(), res) == FinishEdits(old(runtime.Model()), digest, seen)
      ensures calm ==> seen == CalmReading(runtime.store.State(), old(runtime.accepted))
    {
      if pending.value.proposal.None? {
        pending := None;  // No persistence was requested.
      }
      var loaded;
      loaded, seen := runtime.Reload(calm);
      if loaded.Err? {
        return Err(loaded.error), seen;
      }
      if DigestOf(loaded.value) != digest || pending.Some? {
        return Err(Error(ReloadPending, digest)), seen;
      }
      res := Ok(Finished(digest));
    }

    /** A failed channel: a freeze without an approved proposal is released. */
    method ChannelFailed()
      requires runtime.Valid() && runtime.participant == this
      modifies this
      ensures runtime.Valid() && runtime.Model() == ReleaseUnprepared(old(runtime.Model()))
      ensures pending == if old(pending).Some? && old(pending).value.proposal.None? then None else old(pending)
    {
      if pending.Some? && pending.value.proposal.None? {
        pending := None;
      }
    }
  }
}
