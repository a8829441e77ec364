/**
  One process's view of the shared configuration, as values: the accepted snapshot,
  the staged edits, and the freeze a participant holds for one transaction. The
  classes in ConfigurationRuntime.dfy are proved against these functions.
 */
module ConfigurationPeers {
  import opened Wrappers
  import opened LiveConfiguration

  /** What a participant froze for a transaction. */
  datatype Freeze = Freeze(transaction: nat, base: Option<Digest>, proposal: Option<Projection>,
                           versions: map<Name, nat>, cadenceVersion: nat,
                           values: map<Name, Value>, cadence: Option<int>)

  datatype Peer = Peer(owners: set<Name>, provenance: Provenance,
                       accepted: Option<Snapshot>, uncertain: Option<Digest>,
                       staged: map<Name, Value>, versions: map<Name, nat>,
                       stagedCadence: Option<int>, cadenceVersion: nat,
                       sequence: nat, pending: Option<Freeze>)

  /** What one verified read met: the store's answer and the owners' validators. */
  datatype Observation = Observation(loaded: Result<Option<Snapshot>, Code>, valid: bool)

  datatype Message = Capture | Prepare(proposal: Projection) | Abort | Finish(digest: Option<Digest>)

  datatype Reply =
    | Captured(base: Option<Digest>, owners: set<Name>, values: map<Name, Value>, cadence: Option<int>)
    | Prepared(proposal: Projection)
    | Aborted
    | Finished(digest: Option<Digest>)

  function Fail<T>(code: Code): Result<T, Error> {
    Err(Error(code, None))
  }

  function DigestOf(snapshot: Option<Snapshot>): Option<Digest> {
    if snapshot.None? then None else Some(snapshot.value.digest)
  }

  function Floor(snapshot: Option<Snapshot>): nat {
    if snapshot.None? then 0 else snapshot.value.record.revision
  }

  predicate Dirty(p: Peer) {
    p.staged != map[] || p.stagedCadence.Some?
  }

  /** Nothing is staged. */
  ghost predicate Clean(p: Peer) { p.staged == map[] && p.stagedCadence.None? }

  function Cadence(p: Peer): int {
    if p.accepted.None? then 60 else p.accepted.value.record.settings.cadence
  }

  function Newborn(owners: set<Name>, provenance: Provenance): Peer {
    Peer(owners, provenance, None, None, map[], map[], None, 0, 0, None)
  }

  // ------------------------------------------------------------ operations

  function StageEdit(p: Peer, name: Name, value: Value, valid: bool): (Peer, Result<(), Error>) {
    if name !in p.owners || !valid then (p, Fail(Invalid))
    else if p.uncertain.Some? then (p, Fail(Pending))
    else (p.(staged := p.staged[name := value], sequence := p.sequence + 1,
             versions := p.versions[name := p.sequence + 1]), Ok(()))
  }

  function StageCadence(p: Peer, seconds: int): (Peer, Result<(), Error>) {
    if !(1 <= seconds <= 3600) then (p, Fail(Invalid))
    else if p.uncertain.Some? then (p, Fail(Pending))
    else (p.(stagedCadence := Some(seconds), sequence := p.sequence + 1,
             cadenceVersion := p.sequence + 1), Ok(()))
  }

  /** The revision is the one this freeze's coordinator asked for. */
  predicate Fulfils(f: Freeze, record: Record) {
    && f.proposal == Some(record.settings)
    && record.parent == f.base
    && record.provenance.Some?
    && record.provenance.value.operation == Token(f.transaction)
  }

  /** Drop the captured edits whose version did not change since capture. */
  function Reconcile(p: Peer, snapshot: Option<Snapshot>): (Peer, bool) {
    if p.pending.None? || snapshot.None? || !Fulfils(p.pending.value, snapshot.value.record) then (p, false)
    else
      var f := p.pending.value;
      var kept := map name | name in p.staged
                           && !(name in f.values && Lookup(p.versions, name) == Lookup(f.versions, name))
                    :: p.staged[name];
      (p.(staged := kept,
          stagedCadence := if p.cadenceVersion == f.cadenceVersion then None else p.stagedCadence,
          pending := None), true)
  }

  function AcceptSnapshot(p: Peer, snapshot: Option<Snapshot>): (Peer, Result<Option<Snapshot>, Error>) {
    var (r, aggregated) := Reconcile(p, snapshot);
    var was, now := DigestOf(p.accepted), DigestOf(snapshot);
    if Dirty(r) && now != was && now != r.uncertain && !aggregated then (r, Fail(Conflict))
    else if r.uncertain.Some? && now == r.uncertain then
      (r.(staged := map[], stagedCadence := None, uncertain := None, accepted := snapshot), Ok(snapshot))
    else (r.(accepted := snapshot), Ok(snapshot))
  }

  function ReloadEdit(p: Peer, seen: Observation): (Peer, Result<Option<Snapshot>, Error>) {
    if seen.loaded.Err? then (p, Fail(seen.loaded.error))
    else
      var snapshot := seen.loaded.value;
      if snapshot.Some? && !(p.owners <= snapshot.value.record.settings.values.Keys) then (p, Fail(Incomplete))
      else if snapshot.Some? && !seen.valid then (p, Fail(Invalid))
      else AcceptSnapshot(p, snapshot)
  }

  function DiscardEdits(p: Peer, seen: Observation): (Peer, Result<Option<Snapshot>, Error>) {
    if p.uncertain.Some? || p.pending.Some? then (p, Fail(Pending))
    else ReloadEdit(p.(staged := map[], stagedCadence := None), seen)
  }

  /** The complete owner set a runtime's own flush signs. */
  function FlushRequest(p: Peer): Request {
    var values := if p.accepted.None? then map[] else p.accepted.value.record.settings.values;
    var cadence := if p.stagedCadence.None? then Cadence(p) else p.stagedCadence.value;
    Request(Projection(values + p.staged, cadence, map[]), DigestOf(p.accepted), true, Some(p.provenance))
  }

  ghost predicate Flushable(p: Peer) {
    p.pending.None? && (!Clean(p) || p.uncertain.Some?)
  }

  function AfterPersist(p: Peer, outcome: Result<Snapshot, Error>): Peer {
    if outcome.Ok? then p.(uncertain := Some(outcome.value.digest))
    else if outcome.error.code == Uncertain then p.(uncertain := outcome.error.candidate)
    else p
  }

  function CaptureEdits(p: Peer, transaction: nat, seen: Observation): (Peer, Result<Reply, Error>) {
    var (r, loaded) := ReloadEdit(p, seen);
    if loaded.Err? then (r, Err(loaded.error))
    else if r.pending.Some? || r.uncertain.Some? then (r, Fail(Pending))
    else
      var base := DigestOf(loaded.value);
      (r.(pending := Some(Freeze(transaction, base, None, r.versions, r.cadenceVersion, r.staged, r.stagedCadence))),
       Ok(Captured(base, r.owners, r.staged, r.stagedCadence)))
  }

  /** The proposal keeps every captured value. */
  predicate Honours(settings: Projection, values: map<Name, Value>, cadence: Option<int>) {
    && (forall name :: name in values ==> name in settings.values && settings.values[name] == values[name])
    && (cadence.Some? ==> cadence.value == settings.cadence)
  }

  function PrepareEdits(p: Peer, proposal: Projection, valid: bool): (Peer, Result<Reply, Error>)
    requires p.pending.Some?
  {
    var f := p.pending.value;
    if !(1 <= proposal.cadence <= 3600) then (p, Fail(Invalid))
    else if !(p.owners <= proposal.values.Keys) then (p, Fail(Incomplete))
    else if !valid then (p, Fail(Invalid))
    else if !Honours(proposal, f.values, f.cadence) then (p, Fail(Conflict))
    else if f.proposal.Some? && f.proposal.value != proposal then (p, Fail(Conflict))
    else (p.(pending := Some(f.(proposal := Some(proposal)))), Ok(Prepared(proposal)))
  }

  function AbortEdits(p: Peer, intent: Option<Digest>, seen: Observation): (Peer, Result<Reply, Error>) {
    if seen.loaded.Err? then (p, Fail(seen.loaded.error))
    else
      var current := seen.loaded.value;
      if intent.Some? && intent != DigestOf(current) then (p, Err(Error(Pending, intent)))
      else if current.Some? && !(p.owners <= current.value.record.settings.values.Keys) then (p, Fail(Incomplete))
      else if current.Some? && !seen.valid then (p, Fail(Invalid))
      else
        var (r, aggregated) := Reconcile(p, current);
        ((if aggregated then r.(accepted := current) else r).(pending := None), Ok(Aborted))
  }

  function FinishEdits(p: Peer, digest: Option<Digest>, seen: Observation): (Peer, Result<Reply, Error>)
    requires p.pending.Some?
  {
    var released := if p.pending.value.proposal.None? then p.(pending := None) else p;
    var (r, loaded) := ReloadEdit(released, seen);
    if loaded.Err? then (r, Err(loaded.error))
    else if DigestOf(loaded.value) != digest || r.pending.Some? then (r, Err(Error(ReloadPending, digest)))
    else (r, Ok(Finished(digest)))
  }

  function IntentDigest(s: Store): Option<Digest> {
    if s.intent.None? then None else Some(s.intent.value.candidate)
  }

  /** One request of a coordinator's channel. */
  function Ask(p: Peer, transaction: nat, message: Message, intent: Option<Digest>, seen: Observation)
    : (Peer, Result<Reply, Error>)
  {
    if message.Capture? then CaptureEdits(p, transaction, seen)
    else if message.Finish? && p.pending.None? then
      var (r, loaded) := ReloadEdit(p, seen);
      if loaded.Err? then (r, Err(loaded.error))
      else if loaded.value.Some? && Some(loaded.value.value.digest) == message.digest
              && loaded.value.value.record.provenance.Some?
              && loaded.value.value.record.provenance.value.operation == Token(transaction) then
        (r, Ok(Finished(message.digest)))
      else (r, Fail(Pending))
    else if p.pending.None? || p.pending.value.transaction != transaction then (p, Fail(Pending))
    else match message
      case Prepare(proposal) => PrepareEdits(p, proposal, seen.valid)
      case Abort => AbortEdits(p, intent, seen)
      case Finish(digest) => FinishEdits(p, digest, seen)
  }

  /** A failed channel releases a freeze for which no proposal was approved. */
  function ReleaseUnprepared(p: Peer): Peer {
    if p.pending.Some? && p.pending.value.proposal.None? then p.(pending := None) else p
  }

  // ------------------------------------------------------------ invariant

  ghost predicate Carries(settings: Projection, p: Peer) {
    Honours(settings, p.staged, p.stagedCadence)
  }

  /** The accepted snapshot is stored and HEAD descends from it. */
  ghost predicate AcceptedInv(s: Store, accepted: Option<Snapshot>)
    requires Inv(s)
  {
    accepted.Some? ==>
      var a := accepted.value;
      && a.digest in s.objects && s.objects[a.digest] == a.record
      && s.head.Some? && IsAncestor(s.objects, a.digest, s.head.value.digest)
  }

  /** Nothing is staged beside an uncertain candidate: it carries every staged edit. */
  ghost predicate UncertainInv(s: Store, p: Peer) {
    p.uncertain.Some? ==>
      && p.pending.None?
      && p.uncertain.value in s.sealed
      && Carries(s.sealed[p.uncertain.value].settings, p)
  }

  /** Versions only grow, so an unchanged version means an unchanged edit. */
  ghost predicate FreezeInv(p: Peer) {
    && p.cadenceVersion <= p.sequence
    && (forall name :: name in p.staged ==> name in p.versions)
    && (forall name :: name in p.versions ==> p.versions[name] <= p.sequence)
    && (p.pending.Some? ==>
          var f := p.pending.value;
          && f.cadenceVersion <= p.cadenceVersion
          && (p.cadenceVersion == f.cadenceVersion ==> p.stagedCadence == f.cadence)
          && (forall name :: name in f.values ==> name in f.versions)
          && (forall name :: name in f.versions ==> name in p.versions && f.versions[name] <= p.versions[name])
          && (forall name :: name in p.staged && name in f.versions && f.versions[name] == p.versions[name] ==>
                name in f.values && f.values[name] == p.staged[name])
          && (f.proposal.Some? ==> Honours(f.proposal.value, f.values, f.cadence)))
  }

  ghost predicate PeerInv(s: Store, p: Peer) {
    Inv(s) && AcceptedInv(s, p.accepted) && UncertainInv(s, p) && FreezeInv(p)
  }

  /** A peer's invariant survives whatever other writers do to the store. */
  lemma PeerInvStable(s: Store, t: Store, p: Peer)
    requires PeerInv(s, p) && Descends(s, t)
    ensures PeerInv(t, p)
  {
    if p.accepted.Some? {
      var a := p.accepted.value.digest;
      AncestorPreserved(s.objects, t.objects, a, s.head.value.digest);
      AncestorTransitive(t.objects, a, s.head.value.digest, t.head.value.digest);
    }
  }

  /** A read this peer can make of the store: floored at its accepted revision. */
  ghost predicate Observes(s: Store, accepted: Option<Snapshot>, seen: Observation)
    requires Inv(s)
  {
    Reads(s, Floor(accepted), DigestOf(accepted), seen.loaded)
  }

  /** What one request leaves behind: nothing when it is refused at the door, otherwise
      the answer to some read of the store. */
  ghost predicate Asked(s: Store, p: Peer, transaction: nat, message: Message, q: Peer, res: Result<Reply, Error>)
    requires Inv(s)
  {
    || (q == p && res.Err? && res.error.code != Uncertain)
    || exists seen :: AskedSeeing(s, p, transaction, message, q, res, seen)
  }

  ghost predicate AskedSeeing(s: Store, p: Peer, transaction: nat, message: Message, q: Peer,
                              res: Result<Reply, Error>, seen: Observation)
    requires Inv(s)
  {
    && Observes(s, if message.Abort? then None else p.accepted, seen)
    && (q, res) == Ask(p, transaction, message, IntentDigest(s), seen)
  }

  /** The accepted snapshot moved forward along HEAD's ancestry, or stayed. */
  ghost predicate Advances(s: Store, was: Option<Snapshot>, now: Option<Snapshot>)
    requires Inv(s)
  {
    was.Some? ==> now.Some? && IsAncestor(s.objects, was.value.digest, now.value.digest)
  }

  /** The settings of the newly accepted snapshot contain this edit. */
  ghost predicate Landed(now: Option<Snapshot>, name: Name, value: Value) {
    now.Some? && name in now.value.record.settings.values && now.value.record.settings.values[name] == value
  }

  /** No staged edit disappeared unless the accepted snapshot now carries it, and no
      staged edit appeared or changed. */
  ghost predicate KeepsEdits(p: Peer, q: Peer) {
    && (forall name :: name in p.staged && name !in q.staged ==> Landed(q.accepted, name, p.staged[name]))
    && (forall name :: name in q.staged ==> name in p.staged && q.staged[name] == p.staged[name])
    && (p.stagedCadence.Some? && q.stagedCadence != p.stagedCadence ==>
          q.stagedCadence.None? && q.accepted.Some?
          && q.accepted.value.record.settings.cadence == p.stagedCadence.value)
    && (p.stagedCadence.None? ==> q.stagedCadence.None?)
    && q.versions == p.versions && q.cadenceVersion == p.cadenceVersion && q.sequence == p.sequence
  }

  /** A captured edit is dropped only by a revision that fulfils the freeze, and only
      at its captured version. */
  lemma ReconcileDropsOnlyLandedEdits(p: Peer, snapshot: Option<Snapshot>)
    requires FreezeInv(p)
    ensures var (q, aggregated) := Reconcile(p, snapshot);
            && FreezeInv(q)
            && (aggregated <==> p.pending.Some? && snapshot.Some? && Fulfils(p.pending.value, snapshot.value.record))
            && (!aggregated ==> q == p)
            && (aggregated ==> q.pending.None? && KeepsEdits(p.(accepted := snapshot), q.(accepted := snapshot)))
            && (forall name :: name in p.staged && name !in q.staged ==>
                  && name in p.pending.value.values
                  && p.versions[name] == p.pending.value.versions[name]
                  && p.staged[name] == p.pending.value.values[name])
  {
  }

  /** A read that answers gives HEAD, and HEAD descends from what was accepted. */
  lemma ReadAdvances(s: Store, accepted: Option<Snapshot>, seen: Observation)
    requires Inv(s) && AcceptedInv(s, accepted) && Observes(s, accepted, seen) && seen.loaded.Ok?
    ensures seen.loaded.value == HeadSnapshot(s)
    ensures AcceptedInv(s, HeadSnapshot(s)) && Advances(s, accepted, HeadSnapshot(s))
  {
    if s.head.Some? {
      SelfAncestor(s.objects, s.head.value.digest);
    }
  }

  /** What a reload does to the edits, whatever the store answered. */
  lemma ReloadShape(p: Peer, seen: Observation)
    requires FreezeInv(p) && (p.uncertain.Some? ==> p.pending.None?)
    requires seen.loaded.Ok? && p.uncertain.Some? && DigestOf(seen.loaded.value) == p.uncertain ==>
               Carries(seen.loaded.value.value.record.settings, p)
    ensures var (q, res) := ReloadEdit(p, seen);
            && (res.Err? ==> q == p)
            && (res.Ok? ==> seen.loaded.Ok? && q.accepted == res.value == seen.loaded.value)
            && FreezeInv(q) && (res.Ok? ==> KeepsEdits(p, q))
            && (q.uncertain == p.uncertain || (q.uncertain.None? && Clean(q)))
            && (q.uncertain.Some? ==> q.staged == p.staged && q.stagedCadence == p.stagedCadence && q.pending.None?)
  {
    if seen.loaded.Ok? {
      ReconcileDropsOnlyLandedEdits(p, seen.loaded.value);
    }
  }

  /** A reload keeps the invariant, moves only forward, and drops only landed edits. */
  lemma ReloadKeeps(s: Store, p: Peer, seen: Observation)
    requires PeerInv(s, p) && Observes(s, p.accepted, seen)
    ensures var (q, res) := ReloadEdit(p, seen);
            && PeerInv(s, q) && Advances(s, p.accepted, q.accepted) && (q == p || KeepsEdits(p, q))
            && (res.Ok? ==> q.accepted == res.value == HeadSnapshot(s))
            && (res.Err? ==> q == p)
  {
    if p.accepted.Some? {
      SelfAncestor(s.objects, p.accepted.value.digest);
    }
    if seen.loaded.Ok? {
      ReadAdvances(s, p.accepted, seen);
    }
    ReloadShape(p, seen);
  }

  lemma StageKeeps(s: Store, p: Peer, name: Name, value: Value, valid: bool)
    requires PeerInv(s, p)
    ensures var q := StageEdit(p, name, value, valid).0;
            && PeerInv(s, q) && q.accepted == p.accepted
            && (forall n :: n in p.staged ==> n in q.staged && (n != name ==> q.staged[n] == p.staged[n]))
  {
  }

  lemma CadenceKeeps(s: Store, p: Peer, seconds: int)
    requires PeerInv(s, p)
    ensures var q := StageCadence(p, seconds).0;
            PeerInv(s, q) && q.accepted == p.accepted && q.staged == p.staged
  {
  }

  lemma DiscardKeeps(s: Store, p: Peer, seen: Observation)
    requires PeerInv(s, p) && Observes(s, p.accepted, seen)
    ensures var q := DiscardEdits(p, seen).0;
            PeerInv(s, q) && Advances(s, p.accepted, q.accepted)
  {
    if p.uncertain.None? && p.pending.None? {
      ReloadKeeps(s, p.(staged := map[], stagedCadence := None), seen);
    } else {
      AcceptedStays(s, p);
    }
  }

  lemma AcceptedStays(s: Store, p: Peer)
    requires PeerInv(s, p)
    ensures Advances(s, p.accepted, p.accepted)
  {
    if p.accepted.Some? {
      SelfAncestor(s.objects, p.accepted.value.digest);
    }
  }

  lemma CaptureKeeps(s: Store, p: Peer, transaction: nat, seen: Observation)
    requires PeerInv(s, p) && Observes(s, p.accepted, seen)
    ensures var q := CaptureEdits(p, transaction, seen).0;
            PeerInv(s, q) && Advances(s, p.accepted, q.accepted) && (q == p || KeepsEdits(p, q))
  {
    ReloadKeeps(s, p, seen);
    var (r, loaded) := ReloadEdit(p, seen);
    var q := CaptureEdits(p, transaction, seen).0;
    assert q == r || (loaded.Ok? && r.uncertain.None? && q == r.(pending := q.pending));
    assert FreezeInv(q);
  }

  lemma AbortKeeps(s: Store, p: Peer, seen: Observation)
    requires PeerInv(s, p) && Observes(s, None, seen) && p.pending.Some?
    ensures var q := AbortEdits(p, IntentDigest(s), seen).0;
            PeerInv(s, q) && Advances(s, p.accepted, q.accepted) && (q == p || KeepsEdits(p, q))
  {
    AcceptedStays(s, p);
    if seen.loaded.Ok? {
      ReadAdvances(s, None, seen);
      AbortShape(p, IntentDigest(s), seen);
    }
  }

  /** Aborting releases the freeze. It drops an edit only with the revision that carries it. */
  lemma AbortShape(p: Peer, intent: Option<Digest>, seen: Observation)
    requires FreezeInv(p) && (p.uncertain.Some? ==> p.pending.None?)
    ensures var (q, res) := AbortEdits(p, intent, seen);
            && (res.Err? ==> q == p)
            && (res.Ok? ==> q.pending.None? && KeepsEdits(p, q) && seen.loaded.Ok?)
            && (q.accepted == p.accepted || (seen.loaded.Ok? && q.accepted == seen.loaded.value))
            && FreezeInv(q) && q.uncertain == p.uncertain && (p.pending.None? ==> q == p || res.Ok?)
            && (p.uncertain.Some? ==> q.staged == p.staged && q.stagedCadence == p.stagedCadence)
  {
    if seen.loaded.Ok? {
      ReconcileDropsOnlyLandedEdits(p, seen.loaded.value);
    }
  }

  lemma FinishKeeps(s: Store, p: Peer, digest: Option<Digest>, seen: Observation)
    requires PeerInv(s, p) && Observes(s, p.accepted, seen) && p.pending.Some?
    ensures var q := FinishEdits(p, digest, seen).0;
            PeerInv(s, q) && Advances(s, p.accepted, q.accepted) && KeepsEdits(p, q)
  {
    var released := if p.pending.value.proposal.None? then p.(pending := None) else p;
    assert PeerInv(s, released);
    ReloadKeeps(s, released, seen);
    assert FinishEdits(p, digest, seen).0 == ReloadEdit(released, seen).0;
    assert ReloadEdit(released, seen).0 == released ==> KeepsEdits(p, released);
  }

  lemma AskKeeps(s: Store, p: Peer, transaction: nat, message: Message, seen: Observation)
    requires PeerInv(s, p)
    requires Observes(s, if message.Abort? then None else p.accepted, seen)
    ensures var q := Ask(p, transaction, message, IntentDigest(s), seen).0;
            PeerInv(s, q) && Advances(s, p.accepted, q.accepted) && (q == p || KeepsEdits(p, q))
  {
    AcceptedStays(s, p);
    match message
    case Capture => CaptureKeeps(s, p, transaction, seen);
    case Prepare(proposal) =>
    case Abort => if p.pending.Some? { AbortKeeps(s, p, seen); }
    case Finish(digest) =>
      if p.pending.None? { ReloadKeeps(s, p, seen); } else { FinishKeeps(s, p, digest, seen); }
  }

  /** What an undisturbed read of the store meets: its exact answer, and owners who accept what they find. */
  ghost function CalmReading(s: Store, accepted: Option<Snapshot>): Observation
    requires Inv(s)
  {
    Observation(LoadResult(s, Floor(accepted), DigestOf(accepted)), true)
  }

  // ------------------------------------------- what each operation answers

  /** Staging succeeds exactly for a known, valid name with nothing uncertain; the name then holds the new value under
      a version above every earlier one, and everything else is as before. */
  lemma StageExact(p: Peer, name: Name, value: Value, valid: bool)
    requires FreezeInv(p)
    ensures var (q, res) := StageEdit(p, name, value, valid);
            && (res.Ok? <==> name in p.owners && valid && p.uncertain.None?)
            && (res.Err? ==> q == p && res.error.code == if name in p.owners && valid then Pending else Invalid)
            && (res.Ok? ==>
                  && name in q.staged && q.staged[name] == value
                  && q.staged - {name} == p.staged - {name} && q.versions - {name} == p.versions - {name}
                  && name in q.versions && q.versions[name] == q.sequence > p.sequence
                  && (forall n :: n in p.versions ==> p.versions[n] < q.versions[name])
                  && q == p.(staged := q.staged, versions := q.versions, sequence := q.sequence))
  {
  }

  /** The same for a cadence from 1 to 3600 seconds. */
  lemma CadenceExact(p: Peer, seconds: int)
    requires FreezeInv(p)
    ensures var (q, res) := StageCadence(p, seconds);
            && (res.Ok? <==> 1 <= seconds <= 3600 && p.uncertain.None?)
            && (res.Err? ==> q == p && res.error.code == if 1 <= seconds <= 3600 then Pending else Invalid)
            && (res.Ok? ==>
                  && q.stagedCadence == Some(seconds) && q.cadenceVersion == q.sequence > p.sequence
                  && p.cadenceVersion < q.cadenceVersion
                  && q == p.(stagedCadence := q.stagedCadence, cadenceVersion := q.cadenceVersion,
                             sequence := q.sequence))
  {
  }

  /** The seen revision is the child of the captured base that carries the transaction and exactly the proposal. */
  ghost predicate Delivers(f: Freeze, snapshot: Option<Snapshot>) {
    && snapshot.Some? && f.proposal.Some?
    && snapshot.value.record.settings == f.proposal.value && snapshot.value.record.parent == f.base
    && snapshot.value.record.provenance.Some?
    && snapshot.value.record.provenance.value.operation == Token(f.transaction)
  }

  /** The edit was captured and not staged again since. */
  predicate Captures(f: Freeze, p: Peer, name: Name) {
    name in f.values && name in p.versions && name in f.versions && p.versions[name] == f.versions[name]
  }

  /** Exactly the captured edits go, and only with the revision that delivers them; what was staged since stays. */
  lemma ReconcileExact(p: Peer, snapshot: Option<Snapshot>)
    requires FreezeInv(p)
    ensures var (q, aggregated) := Reconcile(p, snapshot);
            && (aggregated <==> p.pending.Some? && Delivers(p.pending.value, snapshot))
            && (!aggregated ==> q == p)
            && (aggregated ==>
                  var f := p.pending.value;
                  && q.pending.None?
                  && (forall name :: name in q.staged <==> name in p.staged && !Captures(f, p, name))
                  && (forall name :: name in q.staged ==> q.staged[name] == p.staged[name])
                  && q.stagedCadence == (if p.cadenceVersion != f.cadenceVersion then p.stagedCadence else None)
                  && q == p.(staged := q.staged, stagedCadence := q.stagedCadence, pending := None))
  {
  }

  /** Something staged remains beside a revision that is neither the accepted nor the uncertain one, and the revision
      is not the freeze's own. */
  ghost predicate Overtaken(p: Peer, snapshot: Option<Snapshot>) {
    && !Clean(p) && !(p.pending.Some? && Delivers(p.pending.value, snapshot))
    && DigestOf(snapshot) != DigestOf(p.accepted) && DigestOf(snapshot) != p.uncertain
  }

  /** The revision holds a value for every owner, and the owners accept them. */
  ghost predicate Complete(p: Peer, snapshot: Option<Snapshot>, valid: bool) {
    snapshot.Some? ==> valid && forall name :: name in p.owners ==> name in snapshot.value.record.settings.values
  }

  /** Why a reload is refused: the reading's own code, an owner without a value, a value its owner rejects, or edits
      another writer has overtaken. */
  ghost function ReloadRefusal(p: Peer, seen: Observation): Code {
    match seen.loaded
    case Err(code) => code
    case Ok(snapshot) =>
      if snapshot.Some? && exists name :: name in p.owners && name !in snapshot.value.record.settings.values then
        Incomplete
      else if snapshot.Some? && !seen.valid then Invalid
      else Conflict
  }

  /**
   * A reload succeeds exactly when the store answers with a complete, valid
   * revision that overtakes nothing staged, and then accepts just that. Where
   * it is the uncertain one nothing stays staged; otherwise only a delivered
   * freeze takes edits with it.
   */
  lemma ReloadExact(p: Peer, seen: Observation)
    requires FreezeInv(p) && (p.uncertain.Some? ==> p.pending.None?)
    ensures var (q, res) := ReloadEdit(p, seen);
            && (res.Ok? <==>
                  seen.loaded.Ok? && Complete(p, seen.loaded.value, seen.valid) && !Overtaken(p, seen.loaded.value))
            && (res.Err? ==> q == p && res.error == Error(ReloadRefusal(p, seen), None))
            && (res.Ok? ==>
                  && res.value == q.accepted == seen.loaded.value
                  && if p.uncertain.Some? && DigestOf(seen.loaded.value) == p.uncertain then
                       Clean(q) && q.uncertain.None? && q == p.(staged := map[], stagedCadence := None,
                                                                  uncertain := None, accepted := q.accepted)
                     else q == Reconcile(p, seen.loaded.value).0.(accepted := q.accepted))
  {
    if seen.loaded.Ok? {
      ReconcileExact(p, seen.loaded.value);
    }
  }

  /** A discard is refused beside an uncertain candidate or a freeze; otherwise nothing stays staged, whether the
      reload after it succeeds or not. */
  lemma DiscardExact(p: Peer, seen: Observation)
    requires FreezeInv(p)
    ensures var (q, res) := DiscardEdits(p, seen);
            && (p.uncertain.Some? || p.pending.Some? ==> q == p && res == Err(Error(Pending, None)))
            && (p.uncertain.None? && p.pending.None? ==>
                  && q.staged == map[] && q.stagedCadence == None
                  && q == p.(staged := map[], stagedCadence := None, accepted := q.accepted)
                  && (res.Ok? <==> seen.loaded.Ok? && Complete(p, seen.loaded.value, seen.valid))
                  && (res.Ok? ==> q.accepted == res.value == seen.loaded.value)
                  && (res.Err? ==> q.accepted == p.accepted && res.error == Error(ReloadRefusal(p, seen), None)))
  {
    if p.uncertain.None? && p.pending.None? {
      ReloadExact(p.(staged := map[], stagedCadence := None), seen);
    }
  }

  /** A capture succeeds exactly after a reload that leaves no other freeze and nothing uncertain; it freezes all that
      is staged, with its versions, over the accepted revision, and says so. */
  lemma CaptureExact(p: Peer, transaction: nat, seen: Observation)
    requires FreezeInv(p) && (p.uncertain.Some? ==> p.pending.None?)
    ensures var (q, res) := CaptureEdits(p, transaction, seen);
            var r := ReloadEdit(p, seen).0;
            && (res.Ok? <==> ReloadEdit(p, seen).1.Ok? && r.pending.None? && r.uncertain.None?)
            && (res.Err? ==>
                  && q == r
                  && res.error == if ReloadEdit(p, seen).1.Err? then ReloadEdit(p, seen).1.error
                                  else Error(Pending, None))
            && (res.Ok? ==>
                  && q.pending.Some? && q == r.(pending := q.pending)
                  && var f := q.pending.value;
                     && f.transaction == transaction && f.base == DigestOf(q.accepted) && f.proposal.None?
                     && f.values == q.staged && f.versions == q.versions
                     && f.cadence == q.stagedCadence && f.cadenceVersion == q.cadenceVersion
                     && res.value == Captured(f.base, q.owners, f.values, f.cadence))
  {
  }

  /** A proposal is approved exactly when it is complete, valid, keeps every captured value and cadence, and no other
      one was approved for the freeze; then it is what the freeze holds. */
  lemma PrepareExact(p: Peer, proposal: Projection, valid: bool)
    requires p.pending.Some?
    ensures var (q, res) := PrepareEdits(p, proposal, valid);
            var f := p.pending.value;
            && (res.Ok? <==>
                  && 1 <= proposal.cadence <= 3600 && valid
                  && (forall name :: name in p.owners ==> name in proposal.values)
                  && (forall name :: name in f.values ==> Lookup(proposal.values, name) == Some(f.values[name]))
                  && (f.cadence.Some? ==> f.cadence == Some(proposal.cadence))
                  && (f.proposal.Some? ==> f.proposal == Some(proposal)))
            && (res.Err? ==>
                  && q == p
                  && res.error == Error(if !(1 <= proposal.cadence <= 3600) then Invalid
                                        else if exists name :: name in p.owners && name !in proposal.values then
                                          Incomplete
                                        else if !valid then Invalid else Conflict, None))
            && (res.Ok? ==> q == p.(pending := Some(f.(proposal := Some(proposal)))) && res.value == Prepared(proposal))
  {
  }

  /**
   * An abort waits for another writer's pending candidate and for a valid
   * store; otherwise it releases the freeze. The edits stay, unless HEAD
   * delivers the freeze after all.
   */
  lemma AbortExact(p: Peer, intent: Option<Digest>, seen: Observation)
    requires FreezeInv(p) && p.pending.Some?
    ensures var (q, res) := AbortEdits(p, intent, seen);
            && (res.Ok? <==>
                  && seen.loaded.Ok? && Complete(p, seen.loaded.value, seen.valid)
                  && (intent.Some? ==> intent == DigestOf(seen.loaded.value)))
            && (res.Err? ==>
                  && q == p
                  && res.error == if seen.loaded.Ok? && intent.Some? && intent != DigestOf(seen.loaded.value) then
                                    Error(Pending, intent)
                                  else Error(ReloadRefusal(p, seen), None))
            && (res.Ok? ==>
                  && res.value == Aborted && q.pending.None?
                  && if Delivers(p.pending.value, seen.loaded.value) then
                       q == Reconcile(p, seen.loaded.value).0.(accepted := seen.loaded.value)
                     else q == p.(pending := None))
  {
    if seen.loaded.Ok? {
      ReconcileExact(p, seen.loaded.value);
    }
  }

  /**
   * A finish of a prepared freeze succeeds exactly when the reload does, HEAD
   * is the named revision, and it delivers the freeze. Then exactly what was
   * captured, and not staged again since, is gone.
   */
  lemma FinishExact(p: Peer, digest: Option<Digest>, seen: Observation)
    requires FreezeInv(p) && p.uncertain.None? && p.pending.Some? && p.pending.value.proposal.Some?
    ensures var (q, res) := FinishEdits(p, digest, seen);
            var f := p.pending.value;
            && (res.Ok? <==>
                  && seen.loaded.Ok? && Complete(p, seen.loaded.value, seen.valid)
                  && DigestOf(seen.loaded.value) == digest && Delivers(f, seen.loaded.value))
            && (res.Err? ==>
                  res.error == if ReloadEdit(p, seen).1.Err? then ReloadEdit(p, seen).1.error
                               else Error(ReloadPending, digest))
            && (res.Ok? ==>
                  && res.value == Finished(digest) && q.pending.None? && q.accepted == seen.loaded.value
                  && (forall name :: name in q.staged <==> name in p.staged && !Captures(f, p, name))
                  && (forall name :: name in q.staged ==> q.staged[name] == p.staged[name])
                  && q.stagedCadence == (if p.cadenceVersion != f.cadenceVersion then p.stagedCadence else None)
                  && (p.versions == f.versions && p.cadenceVersion == f.cadenceVersion ==> Clean(q)))
  {
    if seen.loaded.Ok? {
      ReconcileExact(p, seen.loaded.value);
    }
  }

  /** The freeze landed: what it captured is in the accepted revision, and stays staged only where it was staged again
      since; everything else staged is as before. */
  ghost predicate HandedOver(f: Freeze, p: Peer, q: Peer) {
    && q.pending.None? && q.accepted.Some? && Honours(q.accepted.value.record.settings, f.values, f.cadence)
    && (forall name :: name in q.staged <==> name in p.staged && !Captures(f, p, name))
    && (forall name :: name in q.staged ==> q.staged[name] == p.staged[name])
    && q.stagedCadence == (if p.cadenceVersion != f.cadenceVersion then p.stagedCadence else None)
    && (p.versions == f.versions && p.cadenceVersion == f.cadenceVersion ==> Clean(q))
  }

  /** A finish of a prepared freeze that is answered with success landed it. */
  lemma FinishLands(s: Store, p: Peer, transaction: nat, digest: Option<Digest>, q: Peer, res: Result<Reply, Error>)
    requires PeerInv(s, p) && Asked(s, p, transaction, Finish(digest), q, res) && res.Ok?
    requires p.pending.Some? && p.pending.value.proposal.Some?
    ensures p.pending.value.transaction == transaction && HandedOver(p.pending.value, p, q)
    ensures DigestOf(q.accepted) == digest
  {
    hide FinishEdits, ReloadEdit, AcceptedInv, Observes;
    var seen :| AskedSeeing(s, p, transaction, Finish(digest), q, res, seen);
    AskExact(p, transaction, Finish(digest), IntentDigest(s), seen);
    FinishExact(p, digest, seen);
  }

  /** An abort is answered with success only while HEAD is the intent's candidate, or there is none. */
  lemma AbortWaits(s: Store, p: Peer, seen: Observation)
    requires PeerInv(s, p) && p.pending.Some? && Observes(s, None, seen)
    requires AbortEdits(p, IntentDigest(s), seen).1.Ok? && s.intent.Some?
    ensures HeadDigest(s) == Some(s.intent.value.candidate)
  {
    AbortExact(p, IntentDigest(s), seen);
  }

  /** A finish of a freeze nothing was proposed for releases it, edits and all, and succeeds exactly when the named
      revision is accepted. */
  lemma FinishUnprepared(p: Peer, digest: Option<Digest>, seen: Observation)
    requires FreezeInv(p) && p.uncertain.None? && p.pending.Some? && p.pending.value.proposal.None?
    ensures var (q, res) := FinishEdits(p, digest, seen);
            && q.pending.None? && q == p.(pending := None, accepted := q.accepted)
            && (res.Ok? <==>
                  && seen.loaded.Ok? && Complete(p, seen.loaded.value, seen.valid)
                  && DigestOf(seen.loaded.value) == digest && !Overtaken(p.(pending := None), seen.loaded.value))
            && (res.Err? ==>
                  res.error
                  == if seen.loaded.Ok? && Complete(p, seen.loaded.value, seen.valid)
                         && !Overtaken(p.(pending := None), seen.loaded.value) then Error(ReloadPending, digest)
                     else Error(ReloadRefusal(p, seen), None))
            && (res.Ok? ==> res.value == Finished(digest) && q.accepted == seen.loaded.value)
  {
    ReloadExact(p.(pending := None), seen);
  }

  /** Only a capture, or a finish asked again, is answered for anything but the transaction that holds the freeze. */
  lemma AskExact(p: Peer, transaction: nat, message: Message, intent: Option<Digest>, seen: Observation)
    requires FreezeInv(p) && (p.uncertain.Some? ==> p.pending.None?)
    ensures var (q, res) := Ask(p, transaction, message, intent, seen);
            && (p.pending.None? && (message.Prepare? || message.Abort?) ==> q == p && res == Err(Error(Pending, None)))
            && (p.pending.Some? && p.pending.value.transaction != transaction && !message.Capture? ==>
                  q == p && res == Err(Error(Pending, None)))
            && (message.Finish? && p.pending.None? ==>
                  && q == ReloadEdit(p, seen).0
                  && (res.Ok? <==>
                        && ReloadEdit(p, seen).1.Ok? && message.digest.Some? && DigestOf(q.accepted) == message.digest
                        && q.accepted.value.record.provenance.Some?
                        && q.accepted.value.record.provenance.value.operation == Token(transaction))
                  && (res.Ok? ==> res.value == Finished(message.digest))
                  && (res.Err? ==>
                        res.error == if ReloadEdit(p, seen).1.Err? then ReloadEdit(p, seen).1.error
                                     else Error(Pending, None)))
            && (message.Capture? ==> (q, res) == CaptureEdits(p, transaction, seen))
            && (p.pending.Some? && p.pending.value.transaction == transaction ==>
                  && (message.Prepare? ==> (q, res) == PrepareEdits(p, message.proposal, seen.valid))
                  && (message.Abort? ==> (q, res) == AbortEdits(p, intent, seen))
                  && (message.Finish? ==> (q, res) == FinishEdits(p, message.digest, seen)))
  {
  }

  /**
   * One transaction from capture to finish, with nothing staged meanwhile:
   * everything captured is in the accepted revision, and nothing stays staged.
   */
  lemma TransactionLands(p: Peer, transaction: nat, first: Observation, proposal: Projection, second: Observation,
                         digest: Option<Digest>, third: Observation, intent: Option<Digest>)
    requires FreezeInv(p) && (p.uncertain.Some? ==> p.pending.None?)
    requires first.loaded.Ok? && p.uncertain.Some? && DigestOf(first.loaded.value) == p.uncertain ==>
               Carries(first.loaded.value.value.record.settings, p)
    requires Ask(p, transaction, Capture, intent, first).1.Ok?
    requires var captured := Ask(p, transaction, Capture, intent, first).0;
             && Ask(captured, transaction, Prepare(proposal), intent, second).1.Ok?
             && var prepared := Ask(captured, transaction, Prepare(proposal), intent, second).0;
                Ask(prepared, transaction, Finish(digest), intent, third).1.Ok?
    ensures var captured := Ask(p, transaction, Capture, intent, first).0;
            var prepared := Ask(captured, transaction, Prepare(proposal), intent, second).0;
            var finished := Ask(prepared, transaction, Finish(digest), intent, third).0;
            && Clean(finished) && finished.pending.None? && DigestOf(finished.accepted) == digest
            && finished.accepted.Some? && finished.accepted.value.record.settings == proposal
            && finished.accepted.value.record.parent == DigestOf(captured.accepted)
            && Honours(proposal, captured.staged, captured.stagedCadence)
  {
    var captured := Ask(p, transaction, Capture, intent, first).0;
    var prepared := Ask(captured, transaction, Prepare(proposal), intent, second).0;
    AskExact(p, transaction, Capture, intent, first);
    CaptureExact(p, transaction, first);
    ReloadShape(p, first);
    hide CaptureEdits, ReloadEdit, FinishEdits, Ask, Delivers, FreezeInv;
    CapturedFreeze(p, transaction, first);
    AskExact(captured, transaction, Prepare(proposal), intent, second);
    PrepareExact(captured, proposal, second.valid);
    PreparedFreeze(captured, proposal, second.valid);
    AskExact(prepared, transaction, Finish(digest), intent, third);
    FinishExact(prepared, digest, third);
    assert Delivers(prepared.pending.value, third.loaded.value);
    DeliversMeans(prepared.pending.value, third.loaded.value);
  }

  lemma DeliversMeans(f: Freeze, snapshot: Option<Snapshot>)
    requires Delivers(f, snapshot)
    ensures snapshot.Some? && Some(snapshot.value.record.settings) == f.proposal
    ensures snapshot.value.record.parent == f.base
  {
  }

  lemma CapturedFreeze(p: Peer, transaction: nat, seen: Observation)
    requires FreezeInv(p) && FreezeInv(ReloadEdit(p, seen).0) && CaptureEdits(p, transaction, seen).1.Ok?
    ensures FreezeInv(CaptureEdits(p, transaction, seen).0)
  {
    hide ReloadEdit;
  }

  lemma PreparedFreeze(p: Peer, proposal: Projection, valid: bool)
    requires FreezeInv(p) && p.pending.Some?
    ensures FreezeInv(PrepareEdits(p, proposal, valid).0)
  {
  }

  /** What a runtime's own flush signs: a child of the accepted revision that differs from it in the staged edits
      alone. */
  ghost predicate Signs(record: Record, p: Peer) {
    && record.parent == DigestOf(p.accepted) && record.revision == Floor(p.accepted) + 1
    && record.provenance == Some(p.provenance)
    && (forall name :: name in p.staged ==> Lookup(record.settings.values, name) == Some(p.staged[name]))
    && (p.stagedCadence.Some? ==> record.settings.cadence == p.stagedCadence.value)
    && match p.accepted
       case Some(a) =>
         && (forall name :: name !in p.staged ==>
               Lookup(record.settings.values, name) == Lookup(a.record.settings.values, name))
         && (p.stagedCadence.None? ==> record.settings.cadence == a.record.settings.cadence)
         && record.settings.extensions == a.record.settings.extensions
       case None =>
         && (forall name :: name in record.settings.values ==> name in p.staged)
         && (p.stagedCadence.None? ==> record.settings.cadence == 60)
         && record.settings.extensions == map[]
  }

  /** The store sealed `d` since, and nothing else. */
  ghost predicate Sealed(s: Store, t: Store, p: Peer, d: Digest) {
    d !in s.sealed && d in t.sealed && t.sealed == s.sealed[d := t.sealed[d]] && Signs(t.sealed[d], p)
  }

  lemma NextSigns(s: Store, p: Peer)
    requires Inv(s) && AcceptedInv(s, p.accepted) && HeadDigest(s) == DigestOf(p.accepted)
    ensures Signs(NextRecord(s, FlushRequest(p)), p)
  {
  }

  /** A flush with nothing uncertain seals at most one record, and that is such a child. */
  lemma FlushSigns(s: Store, p: Peer, t: Store, outcome: Result<Snapshot, Error>)
    requires PeerInv(s, p) && p.uncertain.None? && Persisted(s, p, t, outcome)
    ensures t != s ==> exists d :: Sealed(s, t, p, d)
    ensures outcome.Ok? ==> Signs(outcome.value.record, p) && Some(outcome.value) == HeadSnapshot(t)
  {
    hide FreezeInv, Signs, UncertainInv, FlushRequest;
    if t != s || outcome.Ok? {
      var request := FlushRequest(p);
      var d :| CommitReached(s, t, request, outcome, d);
      assert request.expected == DigestOf(p.accepted) by { RequestExpects(p); }
      NextSigns(s, p);
      assert t.sealed == s.sealed[d := NextRecord(s, request)];
      if t != s {
        assert Sealed(s, t, p, d);
      }
    }
  }

  lemma RequestExpects(p: Peer)
    ensures FlushRequest(p).expected == DigestOf(p.accepted)
  {
  }

  /** The durable outcome of one flush: a fresh commit, or recovery of the uncertain one. */
  ghost predicate Persisted(s: Store, p: Peer, t: Store, outcome: Result<Snapshot, Error>)
    requires Inv(s)
  {
    if p.uncertain.Some? then RecoverOutcome(s, t, p.uncertain, outcome)
    else CommitOutcome(s, t, FlushRequest(p), outcome)
  }

  /** A runtime's own flush signs every staged edit, so the candidate carries them. */
  lemma PersistKeeps(s: Store, p: Peer, t: Store, outcome: Result<Snapshot, Error>)
    requires PeerInv(s, p) && Flushable(p) && Persisted(s, p, t, outcome)
    ensures Descends(s, t) && PeerInv(t, AfterPersist(p, outcome))
    ensures outcome.Ok? ==> HeadDigest(t) == Some(outcome.value.digest)
  {
    if p.uncertain.Some? {
      RecoverDescends(s, t, p.uncertain, outcome);
      assert AfterPersist(p, outcome) == p;
    } else {
      CommitDescends(s, t, FlushRequest(p), outcome);
      CommitSealed(s, t, FlushRequest(p), outcome);
      assert Carries(NextRecord(s, FlushRequest(p)).settings, p);
    }
    PeerInvStable(s, t, p);
  }

  /** The accepted revision and the staged edits give every owner a value, and the store takes the commit. */
  ghost predicate Publishable(s: Store, p: Peer) {
    && (forall name :: name in p.owners ==>
          name in p.staged || (p.accepted.Some? && name in p.accepted.value.record.settings.values))
    && CommitRefusal(s, FlushRequest(p)).None?
  }

  /** Whatever a flush added to the store is what the peer accepted, or what it still waits for. */
  ghost predicate Remembered(s: Store, t: Store, q: Peer) {
    t != s ==>
      var held := if q.uncertain.Some? then q.uncertain else DigestOf(q.accepted);
      held.Some? && held.value in t.sealed && held.value !in s.sealed
  }

  lemma NothingWritten(s: Store, q: Peer)
    ensures Remembered(s, s, q)
  {
  }

  lemma PersistRemembers(s: Store, p: Peer, t: Store, outcome: Result<Snapshot, Error>)
    requires Inv(s) && p.uncertain.None? && Persisted(s, p, t, outcome)
    ensures Remembered(s, t, AfterPersist(p, outcome)) && (t != s ==> AfterPersist(p, outcome).uncertain.Some?)
    ensures outcome.Err? && outcome.error.code == Uncertain ==>
              outcome.error.candidate.Some? && AfterPersist(p, outcome).uncertain == outcome.error.candidate
  {
    if t != s {
      var d := CommitSealsOne(s, t, FlushRequest(p), outcome);
    }
  }

  /** What an undisturbed reload does. */
  ghost function CalmReload(s: Store, p: Peer): (Peer, Result<Option<Snapshot>, Error>)
    requires Inv(s)
  {
    ReloadEdit(p, CalmReading(s, p.accepted))
  }

  /** An undisturbed recovery of the uncertain candidate goes through, and it is complete. */
  ghost predicate Recovers(s: Store, p: Peer) {
    && p.uncertain.Some? && RecoverRefusal(s, p.uncertain).None?
    && p.uncertain.value in s.objects && p.owners <= s.objects[p.uncertain.value].settings.values.Keys
  }

  /** A recovered HEAD is the retained candidate. */
  lemma RecoveredRecord(s: Store, t: Store, d: Digest)
    requires Descends(s, t)
    ensures RecoverRefusal(s, Some(d)).None? ==> d in s.objects
    ensures d in s.objects && HeadDigest(t) == Some(d) ==> HeadSnapshot(t) == Some(Snapshot(d, s.objects[d]))
  {
  }

  /** A freeze is never held beside an uncertain candidate. */
  lemma PendingIsCertain(s: Store, p: Peer)
    requires PeerInv(s, p) && p.pending.Some?
    ensures p.uncertain.None?
  {
  }

  /** With nothing staged a second reload succeeds where the first did. */
  lemma CleanReloads(s: Store, p: Peer)
    requires PeerInv(s, p) && PeerInv(s, CalmReload(s, p).0)
    requires CalmReload(s, p).1.Ok? && Clean(CalmReload(s, p).0)
    ensures CalmReload(s, CalmReload(s, p).0).1.Ok?
  {
    var q := CalmReload(s, p).0;
    CalmReads(s, p.accepted);
    CalmReads(s, q.accepted);
    ReloadExact(p, CalmReading(s, p.accepted));
    ReloadShape(p, CalmReading(s, p.accepted));
    ReloadExact(q, CalmReading(s, q.accepted));
    hide ReloadEdit, CalmReading;
  }

  /** A reload lets go of a candidate only by accepting it. */
  lemma ReloadHolds(p: Peer, seen: Observation)
    ensures var q := ReloadEdit(p, seen).0;
            q.uncertain == p.uncertain || (q.uncertain.None? && DigestOf(q.accepted) == p.uncertain)
  {
  }

  lemma ReloadStaysClean(p: Peer, seen: Observation)
    ensures Clean(p) && p.uncertain.None? ==>
              Clean(ReloadEdit(p, seen).0) && ReloadEdit(p, seen).0.uncertain.None?
  {
  }

  lemma RecoveredIsNamed(s: Store, t: Store, candidate: Option<Digest>, res: Result<Snapshot, Error>)
    requires Inv(s) && RecoverOutcome(s, t, candidate, res) && candidate.Some?
    ensures res.Ok? ==> Some(res.value.digest) == candidate
  {
  }

  lemma CommittedHolds(s: Store, t: Store, request: Request, res: Result<Snapshot, Error>)
    requires Inv(s) && CommitOutcome(s, t, request, res)
    ensures res.Ok? ==> res.value.record.settings.values == request.settings.values
  {
  }

  /** An undisturbed read answers, with HEAD, to whoever accepted an ancestor of it. */
  lemma CalmReads(s: Store, accepted: Option<Snapshot>)
    requires Inv(s) && AcceptedInv(s, accepted)
    ensures CalmReading(s, accepted).loaded == Ok(HeadSnapshot(s))
  {
  }

  /** After a successful flush nothing is staged: every edit is in the accepted revision. */
  ghost predicate Flushed(p: Peer, q: Peer) {
    && Clean(q) && q.uncertain.None? && q.accepted.Some?
    && Honours(q.accepted.value.record.settings, p.staged, p.stagedCadence)
  }

  lemma FlushLands(p: Peer, seen: Observation)
    requires p.uncertain.Some? && p.pending.None?
    requires seen.loaded.Ok? ==> DigestOf(seen.loaded.value) == p.uncertain
                                 && Carries(seen.loaded.value.value.record.settings, p)
    ensures var (q, res) := ReloadEdit(p, seen);
            q.pending.None? && (res.Ok? ==> Flushed(p, q))
  {
  }
}
