/**
  Editable working sets: which HEADs a set may be flushed onto, and why everything
  between its base and such a HEAD is its own work.
 */
module ConfigurationEdits {
  import opened Wrappers
  import opened LiveConfiguration
  import opened ConfigurationStores
  import opened ConfigurationPeers
  import opened ConfigurationRuntimes

  /** The revision's operation binds this working set to exactly the settings it carries. */
  predicate ByEdit(record: Record, edit: WorkingSet) {
    record.provenance.Some? && record.provenance.value.operation == EditOf(edit, record.settings)
  }

  predicate WellFormed(edit: WorkingSet) {
    edit.baseRevision == 0 <==> edit.base.None?
  }

  /** The HEADs a working set may build on: its base, or its own later revision above it. */
  ghost predicate Allowed(s: Store, edit: WorkingSet)
    requires Inv(s)
  {
    if HeadDigest(s) == edit.base then HeadRevision(s) == edit.baseRevision
    else
      && s.head.Some? && ByEdit(s.objects[s.head.value.digest], edit)
      && LoadResult(s, edit.baseRevision, edit.base).Ok?
  }

  /** Everything this set ever signed sits on its base or on its own earlier revision. */
  ghost predicate EditLinked(s: Store, edit: WorkingSet) {
    forall d :: d in s.sealed && ByEdit(s.sealed[d], edit) ==>
      var parent := s.sealed[d].parent;
      parent == edit.base || (parent.Some? && parent.value in s.sealed && ByEdit(s.sealed[parent.value], edit))
  }

  /** A durable step of any other writer: it never signs this set's operation. */
  ghost predicate ForeignStep(s: Store, t: Store, edit: WorkingSet) {
    && Step(s, t)
    && forall d :: d in t.sealed && d !in s.sealed ==> !ByEdit(t.sealed[d], edit)
  }

  /** A flush of this working set: refused, or a commit over a HEAD that was allowed when it
      was checked; other writers may have acted since. */
  ghost predicate EditStep(s: Store, t: Store, edit: WorkingSet)
    requires Inv(s)
  {
    t == s || exists checked: Store, request, res :: EditCommit(checked, s, t, edit, request, res)
  }

  ghost predicate EditCommit(checked: Store, s: Store, t: Store, edit: WorkingSet, request: Request,
                             res: Result<Snapshot, Error>)
    requires Inv(s)
  {
    && Inv(checked) && Allowed(checked, edit) && Descends(checked, s) && request.expected == HeadDigest(checked)
    && CommitOutcome(s, t, request, res) && (t != s ==> ByEdit(NextRecord(s, request), edit))
  }

  /** A HEAD that was allowed and is still HEAD is still allowed. */
  lemma AllowedLater(s: Store, t: Store, edit: WorkingSet)
    requires Inv(s) && Inv(t) && Descends(s, t) && HeadDigest(s) == HeadDigest(t) && Allowed(s, edit)
    ensures Allowed(t, edit)
  {
    if s.head.Some? && edit.base.Some? && HeadDigest(s) != edit.base {
      LoadAcceptsExactlyAncestors(s, edit.baseRevision, edit.base.value);
      LoadAcceptsExactlyAncestors(t, edit.baseRevision, edit.base.value);
      AncestorPreserved(s.objects, t.objects, edit.base.value, s.head.value.digest);
    }
  }

  lemma ForeignKeepsLinked(s: Store, t: Store, edit: WorkingSet)
    requires Inv(s) && EditLinked(s, edit) && ForeignStep(s, t, edit)
    ensures Inv(t) && EditLinked(t, edit)
  {
    StepKeepsInv(s, t);
  }

  lemma EditKeepsLinked(s: Store, t: Store, edit: WorkingSet)
    requires Inv(s) && EditLinked(s, edit) && EditStep(s, t, edit)
    ensures Inv(t) && EditLinked(t, edit)
  {
    if t != s {
      var checked: Store, request, res :| EditCommit(checked, s, t, edit, request, res);
      CommitDescends(s, t, request, res);
      hide CommitOutcome, Inv, Descends;
      var d := CommitSealsOne(s, t, request, res);
      AllowedLater(checked, s, edit);
      SealOverAllowedHead(s, edit, d, NextRecord(s, request));
      assert t.sealed == WithSealed(s, d, NextRecord(s, request)).sealed;
    }
  }

  lemma SealOverAllowedHead(s: Store, edit: WorkingSet, d: Digest, record: Record)
    requires Inv(s) && EditLinked(s, edit) && Allowed(s, edit)
    requires d !in s.sealed && record.parent == HeadDigest(s)
    ensures EditLinked(WithSealed(s, d, record), edit)
  {
    assert s.head.Some? ==> s.head.value.digest in s.sealed
                            && s.sealed[s.head.value.digest] == s.objects[s.head.value.digest];
  }

  /** Any interleaving of this set's flushes with other writers. */
  ghost predicate EditRun(states: seq<Store>, edit: WorkingSet) {
    && |states| > 0
    && states[0] == EMPTY
    && forall i, j {:trigger states[i], states[j]} :: 0 <= i && j == i + 1 && j < |states| ==>
         Inv(states[i]) ==> ForeignStep(states[i], states[j], edit) || EditStep(states[i], states[j], edit)
  }

  lemma {:induction false} EditRunKeepsLinked(states: seq<Store>, edit: WorkingSet, k: nat)
    requires EditRun(states, edit) && k < |states|
    ensures Inv(states[k]) && EditLinked(states[k], edit)
  {
    if k > 0 {
      EditRunKeepsLinked(states, edit, k - 1);
      if ForeignStep(states[k - 1], states[k], edit) {
        ForeignKeepsLinked(states[k - 1], states[k], edit);
      } else {
        EditKeepsLinked(states[k - 1], states[k], edit);
      }
    }
  }

  /** Every revision above the base, up to a HEAD the set may build on, is its own. */
  lemma OwnWorkOnly(states: seq<Store>, edit: WorkingSet, k: nat, r: nat)
    requires EditRun(states, edit) && k < |states| && WellFormed(edit)
    ensures Inv(states[k])
    ensures Allowed(states[k], edit) && edit.baseRevision < r <= HeadRevision(states[k]) ==>
              var record := states[k].objects[AncestorAt(states[k].objects, states[k].head.value.digest, r)];
              record.provenance.Some? && record.provenance.value.operation == EditOf(edit, record.settings)
  {
    EditRunKeepsLinked(states, edit, k);
    var s := states[k];
    if Allowed(s, edit) && edit.baseRevision < r <= HeadRevision(s) {
      OwnWorkBelow(s, edit, s.head.value.digest, r);
    }
  }

  lemma {:induction false} OwnWorkBelow(s: Store, edit: WorkingSet, d: Digest, r: nat)
    requires Inv(s) && EditLinked(s, edit) && WellFormed(edit)
    requires d in s.objects && ByEdit(s.objects[d], edit)
    requires edit.baseRevision < r <= s.objects[d].revision
    requires edit.base.Some? ==> AncestorAt(s.objects, d, edit.baseRevision) == edit.base.value
    ensures ByEdit(s.objects[AncestorAt(s.objects, d, r)], edit)
    decreases s.objects[d].revision
  {
    assert LinkedAt(s.objects, d);
    if s.objects[d].revision > r {
      var parent := s.objects[d].parent.value;
      assert parent != d && s.objects[parent].revision > edit.baseRevision;
      assert edit.base.Some? ==> s.objects[edit.base.value].revision == edit.baseRevision;
      OwnWorkBelow(s, edit, parent, r);
    }
  }

  /** What the fresh runtime of a flush holds once the whole working set is staged. */
  ghost predicate FullyStaged(p: Peer, accepted: Option<Snapshot>, values: map<Name, Value>, seconds: int) {
    && p.accepted == accepted && p.uncertain.None? && p.pending.None?
    && p.staged == values && p.stagedCadence == Some(seconds)
  }

  /** The revision carries the working set's values and cadence. */
  ghost predicate Holds(snapshot: Option<Snapshot>, values: map<Name, Value>, seconds: int) {
    snapshot.Some? && Honours(snapshot.value.record.settings, values, Some(seconds))
  }

  /** HEAD already holds what the working set holds. */
  ghost predicate Settled(s: Store, values: map<Name, Value>, seconds: int)
    requires Inv(s)
  {
    s.head.Some? && Honours(s.objects[s.head.value.digest].settings, values, Some(seconds))
  }

  /** A flush nobody disturbs goes through: the set is complete over an allowed and complete HEAD, and the store has
      room for what it changes. */
  ghost predicate CanFlush(s: Store, edit: WorkingSet, values: map<Name, Value>, seconds: int)
    requires Inv(s)
  {
    && values.Keys == edit.owners && 1 <= seconds <= 3600 && Allowed(s, edit)
    && (s.head.Some? ==> edit.owners <= s.objects[s.head.value.digest].settings.values.Keys)
    && (Settled(s, values, seconds) || HasRoom(s, values, seconds))
  }

  /** The store would take the changed settings over its HEAD. */
  ghost predicate HasRoom(s: Store, values: map<Name, Value>, seconds: int)
    requires Inv(s)
  {
    var kept := if s.head.Some? then s.objects[s.head.value.digest].settings.values else map[];
    && (s.intent.Some? ==> HeadDigest(s) == Some(s.intent.value.candidate))
    && |s.objects| < 1024 && WellSet(Projection(kept + values, seconds, map[]))
  }

  /** HEAD is a child of the one before: the edited names and the cadence are the set's, all else is as it was, and the
      operation is the set's own. */
  ghost predicate Edited(s: Store, t: Store, edit: WorkingSet, values: map<Name, Value>, seconds: int)
    requires Inv(s) && Inv(t)
  {
    && t.head.Some? && t.head.value.digest !in s.sealed
    && var record := t.objects[t.head.value.digest];
       && record.parent == HeadDigest(s) && ByEdit(record, edit)
       && Honours(record.settings, values, Some(seconds))
       && match HeadSnapshot(s)
          case Some(h) =>
            && record.settings.extensions == h.record.settings.extensions
            && forall name :: name !in values ==>
                 Lookup(record.settings.values, name) == Lookup(h.record.settings.values, name)
          case None => record.settings.extensions == map[] && record.settings.values == values
  }

  /** What an undisturbed flush leaves: HEAD as it was if the set changes nothing, else the edited revision. */
  ghost predicate FlushedSet(s: Store, t: Store, edit: WorkingSet, values: map<Name, Value>, seconds: int)
    requires Inv(s) && Inv(t)
  {
    if Settled(s, values, seconds) then t == s else Edited(s, t, edit, values, seconds)
  }

  /** Stage every owner of the working set, then its cadence. */
  method StageAll(active: ConfigurationRuntime, values: map<Name, Value>, seconds: int, calm: bool)
    returns (failure: Option<Error>)
    requires active.Valid() && active.participant == null
    requires active.uncertain.None? && active.staged == map[]
    modifies active
    ensures active.Valid() && active.participant == null
    ensures active.provenance == old(active.provenance)
    ensures failure.None? ==> FullyStaged(active.Model(), old(active.accepted), values, seconds)
    ensures calm ==> (failure.None? <==> values.Keys <= active.owners && 1 <= seconds <= 3600)
  {
    hide Run, Inv;
    var todo := values.Keys;
    while todo != {}
      invariant active.Valid() && active.participant == null && todo <= values.Keys
      invariant active.uncertain.None? && active.accepted == old(active.accepted)
      invariant active.provenance == old(active.provenance) && values.Keys - todo <= active.owners
      invariant active.staged == map name | name in values && name !in todo :: values[name]
      decreases todo
    {
      var name :| name in todo;
      var res := active.Stage(name, values[name], calm);
      if res.Err? {
        return Some(res.error);
      }
      todo := todo - {name};
    }
    var res := active.StageCadenceSeconds(seconds);
    assert active.staged == values;
    return if res.Err? then Some(res.error) else None;
  }

  /** Any writes of other writers, while a runtime holds what it accepted. */
  method OtherWrites(store: ConfigurationStore, active: ConfigurationRuntime, calm: bool)
    requires active.Valid() && active.store == store && active.participant == null
    modifies store
    ensures active.Valid() && Descends(old(store.State()), store.State())
    ensures calm ==> store.State() == old(store.State())
  {
    hide Descends, PeerInv, CommitOutcome, RecoverOutcome;
    SameDescends(store.State());
    var rounds: int := *;
    for n := 0 to if calm || rounds < 0 then 0 else rounds
      invariant active.Valid() && Descends(old(store.State()), store.State())
      invariant calm ==> store.State() == old(store.State())
    {
      ghost var s := store.State();
      var request: Request, candidate: Option<Digest>, recovers: bool := *, *, *;
      if recovers {
        var _ := store.Recover(candidate, true, false);
      } else {
        var _ := store.Commit(request, true, false);
      }
      PeerInvStable(s, store.State(), active.Model());
      DescendsTransitive(old(store.State()), s, store.State());
    }
  }

  /** Flush one complete working set: `values` and `seconds` are what its files hold. Other
      writers may act between the reading of HEAD, the check and the commit; `before` is the
      store they leave. */
  method FlushEdit(store: ConfigurationStore, edit: WorkingSet, values: map<Name, Value>, seconds: int,
                   provenance: Provenance, authorized: bool, calm: bool)
    returns (res: Result<Option<Snapshot>, Error>, ghost before: Store)
    requires store.Valid() && WellFormed(edit)
    modifies store
    ensures store.Valid() && Descends(old(store.State()), before) && Descends(before, store.State())
    ensures EditStep(before, store.State(), edit)
    ensures !old(Allowed(store.State(), edit)) ==>
              store.State() == before && (edit.baseRevision <= old(HeadRevision(store.State())) ==> res.Err?)
    ensures res.Ok? ==> values.Keys == edit.owners && Holds(res.value, values, seconds)
    ensures !authorized || values.Keys != edit.owners ==>
              res.Err? && res.error.code == Unauthorized && store.State() == old(store.State())
    ensures calm && authorized ==> (res.Ok? <==> old(CanFlush(store.State(), edit, values, seconds)))
    ensures calm && res.Ok? ==>
              && res.value == HeadSnapshot(store.State())
              && FlushedSet(old(store.State()), store.State(), edit, values, seconds)
  {
    hide Run, Descends, Allowed, EditStep, Holds, Cleared, HasRoom, Settled, FlushedSet, ReloadEdit, CalmReading;
    hide PeerInv;
    before := store.State();
    SameDescends(before);
    NoStep(before, edit);
    FreshReads(before, Newborn(edit.owners, provenance));
    if !authorized || values.Keys != edit.owners {
      return Fail(Unauthorized), before;
    }
    var active := new ConfigurationRuntime(store, edit.owners, provenance);
    ghost var seen;
    res, seen := active.Reload(calm);
    FreshHolds(Newborn(edit.owners, provenance), seen);
    if res.Err? {
      return;
    }
    var current := active.accepted;
    ghost var checked := store.State();
    OtherWrites(store, active, calm);
    before := store.State();
    SameDescends(before);
    NoStep(before, edit);
    var blocked := CheckBase(store, edit, current, calm, checked);
    if blocked.Some? {
      return Fail(blocked.value), before;
    }
    OnlyIfAbove(checked, before, edit);
    ghost var cleared := before;
    res, before := StageAndFlush(active, edit, values, seconds, calm, checked);
    DescendsTransitive(checked, cleared, before);
  }

  /** A new runtime reads HEAD undisturbed exactly when HEAD has a value for each of its owners. */
  lemma FreshReads(s: Store, p: Peer)
    requires Inv(s) && p.accepted.None? && p.uncertain.None? && p.pending.None? && Clean(p)
    ensures CalmReload(s, p).1.Ok? <==>
              s.head.Some? ==> p.owners <= s.objects[s.head.value.digest].settings.values.Keys
  {
  }

  /** It has nothing staged and nothing uncertain. */
  lemma FreshHolds(p: Peer, seen: Observation)
    requires p.uncertain.None? && p.pending.None? && Clean(p)
    ensures var q := ReloadEdit(p, seen).0; q.uncertain.None? && q.pending.None? && Clean(q) && q.owners == p.owners
  {
  }

  lemma NoStep(s: Store, edit: WorkingSet)
    requires Inv(s)
    ensures EditStep(s, s, edit)
  {
  }

  lemma OnlyIfAbove(seen: Store, s: Store, edit: WorkingSet)
    requires Descends(seen, s)
    ensures Cleared(seen, s, edit) && edit.baseRevision <= HeadRevision(seen) ==> Allowed(seen, edit)
  {
  }

  /** Behind the base check: stage everything, let others act, and flush. */
  method StageAndFlush(active: ConfigurationRuntime, edit: WorkingSet, values: map<Name, Value>, seconds: int,
                       calm: bool, ghost checked: Store)
    returns (res: Result<Option<Snapshot>, Error>, ghost before: Store)
    requires active.Valid() && active.participant == null && active.uncertain.None? && active.staged == map[]
    requires Descends(checked, active.store.State()) && active.accepted == HeadSnapshot(checked)
    requires Cleared(checked, active.store.State(), edit)
    modifies active, active.store
    ensures active.store.Valid()
    ensures Descends(old(active.store.State()), before) && Descends(before, active.store.State())
    ensures EditStep(before, active.store.State(), edit)
    ensures !Allowed(checked, edit) ==> active.store.State() == before
    ensures res.Ok? ==> Holds(res.value, values, seconds)
    ensures calm && checked == old(active.store.State()) && active.owners == values.Keys && Allowed(checked, edit) ==>
              && (res.Ok? <==> 1 <= seconds <= 3600
                               && (Settled(checked, values, seconds) || HasRoom(checked, values, seconds)))
              && (res.Ok? ==> res.value == HeadSnapshot(active.store.State())
                              && FlushedSet(checked, active.store.State(), edit, values, seconds))
  {
    hide Run, Descends, Allowed, EditStep, Holds, Cleared, HasRoom, Settled, FlushedSet;
    before := active.store.State();
    SameDescends(before);
    NoStep(before, edit);
    var failure := StageAll(active, values, seconds, calm);
    if failure.Some? {
      return Err(failure.value), before;
    }
    ghost var middle := active.store.State();
    OtherWrites(active.store, active, calm);
    before := active.store.State();
    DescendsTransitive(checked, middle, before);
    MovedOn(checked, middle, before, edit);
    res := FlushStaged(active, edit, values, seconds, calm, checked);
  }

  /** Bind the operation to the complete settings and flush, unless nothing changed. */
  method FlushStaged(active: ConfigurationRuntime, edit: WorkingSet, values: map<Name, Value>, seconds: int, calm: bool,
                     ghost checked: Store)
    returns (res: Result<Option<Snapshot>, Error>)
    requires active.Valid() && active.participant == null
    requires Descends(checked, active.store.State())
    requires Allowed(checked, edit) || HeadDigest(active.store.State()) != HeadDigest(checked)
    requires FullyStaged(active.Model(), HeadSnapshot(checked), values, seconds)
    modifies active, active.store
    ensures active.store.Valid() && Descends(old(active.store.State()), active.store.State())
    ensures EditStep(old(active.store.State()), active.store.State(), edit)
    ensures !Allowed(checked, edit) ==> active.store.State() == old(active.store.State())
    ensures res.Ok? ==> Holds(res.value, values, seconds)
    ensures calm && checked == old(active.store.State()) && active.owners == values.Keys && 1 <= seconds <= 3600 ==>
              && (res.Ok? <==> Settled(checked, values, seconds) || HasRoom(checked, values, seconds))
              && (res.Ok? ==> res.value == HeadSnapshot(active.store.State())
                              && FlushedSet(checked, active.store.State(), edit, values, seconds))
  {
    hide Run, Descends, Persisted, Signs, Publishable, HasRoom, Settled, Edited, FlushedSet, EditStep, Remembered, Inv;
    ghost var s := active.store.State();
    SameDescends(s);
    var current := active.accepted;
    var before := if current.None? then map[] else current.value.record.settings.values;
    var extensions := if current.None? then map[] else current.value.record.settings.extensions;
    var proposed := Projection(before + values, seconds, extensions);
    active.provenance := active.provenance.(operation := EditOf(edit, proposed));
    if checked == s {
      SettledMeans(s, edit, values, seconds, proposed.values);
    }
    if current.Some? && proposed.values == current.value.record.settings.values
       && seconds == current.value.record.settings.cadence {
      NoStep(s, edit);
      return Ok(current);
    }
    ghost var p := active.Model();
    if checked == s && active.owners == values.Keys {
      RoomMeans(s, p, values, seconds);
    }
    ghost var outcome;
    res, outcome := active.FlushEdits(true, calm);
    if res.Ok? && checked == s {
      SignedSet(s, p, active.store.State(), active.Model(), edit, proposed);
      assert !Settled(s, values, seconds);
    }
    FlushSignsEdit(checked, s, p, edit, proposed, active.store.State(), outcome);
  }

  /** The comparison of the planned settings with HEAD's decides whether the set changes anything. */
  lemma SettledMeans(s: Store, edit: WorkingSet, values: map<Name, Value>, seconds: int, planned: map<Name, Value>)
    requires Inv(s)
    requires planned == (if s.head.Some? then s.objects[s.head.value.digest].settings.values else map[]) + values
    ensures Settled(s, values, seconds) <==>
              && s.head.Some? && planned == s.objects[s.head.value.digest].settings.values
              && seconds == s.objects[s.head.value.digest].settings.cadence
    ensures Settled(s, values, seconds) ==> FlushedSet(s, s, edit, values, seconds)
  {
  }

  /** With every owner staged, only the store's own refusals are left. */
  lemma RoomMeans(s: Store, p: Peer, values: map<Name, Value>, seconds: int)
    requires Inv(s) && FullyStaged(p, HeadSnapshot(s), values, seconds) && p.owners == values.Keys
    ensures 1 <= seconds <= 3600 ==> (Publishable(s, p) <==> HasRoom(s, values, seconds))
  {
  }

  /** What a flush of the staged set signed is the edited revision. */
  lemma SignedSet(s: Store, p: Peer, t: Store, q: Peer, edit: WorkingSet, proposed: Projection)
    requires Inv(s) && Inv(t) && p.accepted == HeadSnapshot(s) && p.stagedCadence.Some?
    requires proposed.values == (if p.accepted.None? then map[] else p.accepted.value.record.settings.values) + p.staged
    requires proposed.cadence == p.stagedCadence.value
    requires proposed.extensions == if p.accepted.None? then map[] else p.accepted.value.record.settings.extensions
    requires p.provenance.operation == EditOf(edit, proposed)
    requires q.uncertain.None? && q.accepted == HeadSnapshot(t) && t.head.Some?
    requires Remembered(s, t, q) && Signs(q.accepted.value.record, p)
    ensures Edited(s, t, edit, p.staged, p.stagedCadence.value)
    ensures !Settled(s, p.staged, p.stagedCadence.value) ==>
              FlushedSet(s, t, edit, p.staged, p.stagedCadence.value)
  {
    hide Inv;
    SignedSettings(q.accepted.value.record, p, proposed);
  }

  lemma SignedSettings(record: Record, p: Peer, proposed: Projection)
    requires p.stagedCadence.Some? && Signs(record, p)
    requires proposed.values == (if p.accepted.None? then map[] else p.accepted.value.record.settings.values) + p.staged
    requires proposed.cadence == p.stagedCadence.value
    requires proposed.extensions == if p.accepted.None? then map[] else p.accepted.value.record.settings.extensions
    ensures record.settings == proposed
  {
    var values := record.settings.values;
    forall name
      ensures Lookup(values, name) == Lookup(proposed.values, name)
    {
    }
    SameLookups(values, proposed.values);
  }

  /** A map is what is found in it. */
  lemma SameLookups(a: map<Name, Value>, b: map<Name, Value>)
    requires forall name :: Lookup(a, name) == Lookup(b, name)
    ensures a == b
  {
    forall name
      ensures name in a <==> name in b
    {
      assert Lookup(a, name) == Lookup(b, name);
    }
    forall name | name in a
      ensures a[name] == b[name]
    {
      assert Lookup(a, name) == Lookup(b, name);
    }
  }

  /** The signed record of a working-set flush carries that set's operation. */
  lemma FlushSignsEdit(checked: Store, s: Store, p: Peer, edit: WorkingSet, proposed: Projection,
                       t: Store, outcome: Result<Snapshot, Error>)
    requires Descends(checked, s) && (Allowed(checked, edit) || HeadDigest(s) != HeadDigest(checked))
    requires PeerInv(s, p) && p.uncertain.None? && p.accepted == HeadSnapshot(checked) && p.stagedCadence.Some?
    requires proposed.values == (if p.accepted.None? then map[] else p.accepted.value.record.settings.values) + p.staged
    requires proposed.cadence == p.stagedCadence.value
    requires proposed.extensions == if p.accepted.None? then map[] else p.accepted.value.record.settings.extensions
    requires p.provenance.operation == EditOf(edit, proposed)
    requires Persisted(s, p, t, outcome)
    ensures EditStep(s, t, edit) && (!Allowed(checked, edit) ==> t == s)
  {
    hide CommitReached;
    var request := FlushRequest(p);
    assert request.expected == HeadDigest(checked);
    if t != s {
      var d := CommitSealsOne(s, t, request, outcome);
      SameHead(checked, s);
      assert ByEdit(NextRecord(s, request), edit);
      assert EditCommit(checked, s, t, edit, request, outcome);
    }
  }

  /** The same digest at HEAD is the same record. */
  lemma SameHead(s: Store, t: Store)
    requires Inv(s) && Inv(t) && Descends(s, t) && HeadDigest(s) == HeadDigest(t)
    ensures HeadSnapshot(s) == HeadSnapshot(t)
  {
  }

  /** What an earlier reading of HEAD allows, or HEAD has moved past it up to the recorded base. */
  ghost predicate Cleared(seen: Store, s: Store, edit: WorkingSet)
    requires Inv(seen) && Inv(s)
  {
    || Allowed(seen, edit)
    || (edit.baseRevision > HeadRevision(seen) && HeadRevision(s) > HeadRevision(seen))
  }

  /** The base is looked up under the present HEAD; below the HEAD that was read that is the same. */
  lemma EarlierAllowed(seen: Store, s: Store, edit: WorkingSet)
    requires Descends(seen, s) && WellFormed(edit) && seen.head.Some? && HeadDigest(seen) != edit.base
    requires ByEdit(seen.objects[seen.head.value.digest], edit)
    requires LoadResult(s, edit.baseRevision, edit.base).Ok?
    ensures Cleared(seen, s, edit)
  {
    var d, h, r := seen.head.value.digest, s.head.value.digest, edit.baseRevision;
    if edit.base.Some? && r <= HeadRevision(seen) {
      AncestorBelow(s.objects, d, h, r);
      var a := AncestorAt(seen.objects, d, r);
      AncestorPreserved(seen.objects, s.objects, a, d);
    }
  }

  /** Below an ancestor the lines of descent are one. */
  lemma {:induction false} AncestorBelow(objects: map<Digest, Record>, a: Digest, d: Digest, r: nat)
    requires Linked(objects) && IsAncestor(objects, a, d) && 1 <= r <= objects[a].revision
    ensures AncestorAt(objects, d, r) == AncestorAt(objects, a, r)
    decreases if d in objects then objects[d].revision else 0
  {
    assert LinkedAt(objects, d) && LinkedAt(objects, a);
    if a != d {
      AncestorBelow(objects, a, objects[d].parent.value, r);
    }
  }

  /** HEAD never comes back to a digest it moved past. */
  lemma MovedOn(seen: Store, s: Store, t: Store, edit: WorkingSet)
    requires Descends(seen, s) && Descends(s, t) && Cleared(seen, s, edit)
    ensures Allowed(seen, edit) || HeadDigest(t) != HeadDigest(seen)
  {
  }

  /** A working set may be flushed onto its base, or onto its own later revision. `current` is what
      HEAD held at the earlier state `seen`. */
  method CheckBase(store: ConfigurationStore, edit: WorkingSet, current: Option<Snapshot>, calm: bool,
                   ghost seen: Store)
    returns (blocked: Option<Code>)
    requires store.Valid() && WellFormed(edit)
    requires Descends(seen, store.State()) && current == HeadSnapshot(seen)
    ensures blocked.None? ==> Cleared(seen, store.State(), edit)
    ensures calm && seen == store.State() ==> (blocked.None? <==> Allowed(seen, edit))
  {
    if edit.base == DigestOf(current) {
      return if Floor(current) == edit.baseRevision then None else Some(Conflict);
    }
    if current.None? || !ByEdit(current.value.record, edit) {
      return Some(Conflict);
    }
    var fault := Chance(calm);
    var loaded := store.Load(edit.baseRevision, edit.base, fault);
    if loaded.Ok? {
      EarlierAllowed(seen, store.State(), edit);
    }
    return if loaded.Err? then Some(loaded.error) else None;
  }
}
