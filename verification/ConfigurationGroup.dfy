/**
  One coordinated save across a cohort of participants: capture, merge, prepare,
  commit, finish, and the classification of failures that decides about abort.
 */
module ConfigurationGroups {
  import opened Wrappers
  import opened LiveConfiguration
  import opened ConfigurationStores
  import opened ConfigurationPeers
  import opened ConfigurationRuntimes
  import opened ConfigurationSaves

  // ----------------------------------------------------------------- merge

  /** `merged` is `base` overridden by exactly the union of the captured proposals. */
  ghost predicate IsMerge(base: Projection, frozen: seq<Reply>, merged: Projection)
    requires forall k :: 0 <= k < |frozen| ==> frozen[k].Captured?
  {
    && merged.extensions == base.extensions
    && (forall k :: 0 <= k < |frozen| ==> Honours(merged, frozen[k].values, frozen[k].cadence))
    && (forall name :: name in base.values ==> name in merged.values)
    && (forall name :: name in merged.values ==>
          || (exists k :: 0 <= k < |frozen| && name in frozen[k].values)
          || (name in base.values && merged.values[name] == base.values[name]))
    && ((forall k :: 0 <= k < |frozen| ==> frozen[k].cadence.None?) ==> merged.cadence == base.cadence)
  }

  /** Two participants captured different values for one owner, or different cadences. */
  ghost predicate Disagree(a: Reply, b: Reply)
    requires a.Captured? && b.Captured?
  {
    || (exists name :: name in a.values && name in b.values && a.values[name] != b.values[name])
    || (a.cadence.Some? && b.cadence.Some? && a.cadence != b.cadence)
  }

  ghost predicate Conflicting(frozen: seq<Reply>) {
    exists i, j :: 0 <= i < |frozen| && 0 <= j < |frozen| && frozen[i].Captured? && frozen[j].Captured?
      && Disagree(frozen[i], frozen[j])
  }

  lemma DisagreementHasNoMerge(base: Projection, frozen: seq<Reply>, merged: Projection, i: nat, j: nat)
    requires forall k :: 0 <= k < |frozen| ==> frozen[k].Captured?
    requires i < |frozen| && j < |frozen| && Disagree(frozen[i], frozen[j])
    ensures !IsMerge(base, frozen, merged)
  {
  }

  lemma MergeAgrees(base: Projection, frozen: seq<Reply>, merged: Projection)
    requires forall k :: 0 <= k < |frozen| ==> frozen[k].Captured?
    requires IsMerge(base, frozen, merged)
    ensures !Conflicting(frozen)
  {
    forall i, j, name | 0 <= i < |frozen| && 0 <= j < |frozen| && name in frozen[i].values && name in frozen[j].values
      ensures frozen[i].values[name] == frozen[j].values[name]
    {
      assert Honours(merged, frozen[i].values, frozen[i].cadence)
             && Honours(merged, frozen[j].values, frozen[j].cadence);
    }
  }

  /** Whatever one merge holds, another holds too. */
  lemma MergeContained(base: Projection, frozen: seq<Reply>, a: Projection, b: Projection, name: Name)
    requires forall k :: 0 <= k < |frozen| ==> frozen[k].Captured?
    requires IsMerge(base, frozen, a) && IsMerge(base, frozen, b) && name in a.values
    ensures name in b.values && a.values[name] == b.values[name]
  {
    if k :| 0 <= k < |frozen| && name in frozen[k].values {
      assert Honours(a, frozen[k].values, frozen[k].cadence) && Honours(b, frozen[k].values, frozen[k].cadence);
    }
  }

  /** The merge is unique: no other settings override the base by the same union. */
  lemma MergeUnique(base: Projection, frozen: seq<Reply>, a: Projection, b: Projection)
    requires forall k :: 0 <= k < |frozen| ==> frozen[k].Captured?
    requires IsMerge(base, frozen, a) && IsMerge(base, frozen, b)
    ensures a == b
  {
    SameValues(base, frozen, a, b);
    SameCadence(base, frozen, a, b);
  }

  lemma SameValues(base: Projection, frozen: seq<Reply>, a: Projection, b: Projection)
    requires forall k :: 0 <= k < |frozen| ==> frozen[k].Captured?
    requires IsMerge(base, frozen, a) && IsMerge(base, frozen, b)
    ensures a.values == b.values
  {
    hide IsMerge;
    forall name | name in a.values || name in b.values
      ensures name in a.values && name in b.values && a.values[name] == b.values[name]
    {
      if name in a.values {
        MergeContained(base, frozen, a, b, name);
      } else {
        MergeContained(base, frozen, b, a, name);
      }
    }
  }

  lemma SameCadence(base: Projection, frozen: seq<Reply>, a: Projection, b: Projection)
    requires forall k :: 0 <= k < |frozen| ==> frozen[k].Captured?
    requires IsMerge(base, frozen, a) && IsMerge(base, frozen, b)
    ensures a.cadence == b.cadence
  {
    if k :| 0 <= k < |frozen| && frozen[k].cadence.Some? {
      assert Honours(a, frozen[k].values, frozen[k].cadence) && Honours(b, frozen[k].values, frozen[k].cadence);
    }
  }

  /** Add one captured set of values to the updates, or report a conflict. */
  method MergeValues(updates: map<Name, Value>, values: map<Name, Value>) returns (res: Result<map<Name, Value>, Code>)
    ensures res.Ok? <==> forall name :: name in updates && name in values ==> updates[name] == values[name]
    ensures res.Ok? ==> res.value == updates + values
    ensures res.Err? ==> res.error == Conflict
  {
    var merged := updates;
    var todo := values.Keys;
    while todo != {}
      invariant todo <= values.Keys
      invariant forall name :: name in updates && name in values && name !in todo ==> updates[name] == values[name]
      invariant forall name :: name in merged <==> name in updates || (name in values && name !in todo)
      invariant forall name :: name in merged ==>
                  merged[name] == if name in values && name !in todo then values[name] else updates[name]
      decreases todo
    {
      var name :| name in todo;
      if name in merged && merged[name] != values[name] {
        return Err(Conflict);
      }
      merged := merged[name := values[name]];
      todo := todo - {name};
    }
    assert merged == updates + values;
    return Ok(merged);
  }

  datatype Updates = Updates(values: map<Name, Value>, cadence: Option<int>)

  /** The union of what the first `n` captures proposed. */
  ghost predicate Collected(frozen: seq<Reply>, n: nat, u: Updates)
    requires n <= |frozen| && forall k :: 0 <= k < |frozen| ==> frozen[k].Captured?
  {
    && (forall k, name :: 0 <= k < n && name in frozen[k].values ==>
          name in u.values && u.values[name] == frozen[k].values[name])
    && (forall name :: name in u.values ==> exists k :: 0 <= k < n && name in frozen[k].values)
    && (forall k :: 0 <= k < n && frozen[k].cadence.Some? ==> u.cadence == frozen[k].cadence)
    && (u.cadence.Some? ==> exists k :: 0 <= k < n && frozen[k].cadence.Some?)
  }

  /** One more capture, merged in without a conflict. */
  lemma CollectedStep(frozen: seq<Reply>, n: nat, before: Updates, u: Updates)
    requires n < |frozen| && forall k :: 0 <= k < |frozen| ==> frozen[k].Captured?
    requires Collected(frozen, n, before) && u.values == before.values + frozen[n].values
    requires forall name :: name in before.values && name in frozen[n].values ==>
               before.values[name] == frozen[n].values[name]
    requires frozen[n].cadence.Some? && before.cadence.Some? ==> before.cadence == frozen[n].cadence
    requires u.cadence == if frozen[n].cadence.Some? then frozen[n].cadence else before.cadence
    ensures Collected(frozen, n + 1, u)
  {
    forall name | name in u.values
      ensures exists k :: 0 <= k < n + 1 && name in frozen[k].values
    {
      if name in frozen[n].values {
        assert name in frozen[n].values;
      }
    }
  }

  lemma CollectedAgrees(frozen: seq<Reply>, u: Updates, i: nat, j: nat)
    requires forall k :: 0 <= k < |frozen| ==> frozen[k].Captured?
    requires Collected(frozen, |frozen|, u) && i < |frozen| && j < |frozen|
    ensures !Disagree(frozen[i], frozen[j])
  {
    assert frozen[i].Captured? && frozen[j].Captured?;
    forall name | name in frozen[i].values && name in frozen[j].values
      ensures frozen[i].values[name] == frozen[j].values[name]
    {
      assert frozen[i].values[name] == u.values[name];
    }
  }

  /** The captures are over the base, of known owners and in range, and nothing in them disagrees. */
  ghost predicate Mergeable(frozen: seq<Reply>, base: Option<Digest>, owners: set<Name>) {
    && (forall k :: 0 <= k < |frozen| ==>
          && frozen[k].Captured? && frozen[k].base == base
          && frozen[k].owners <= owners && frozen[k].values.Keys <= frozen[k].owners
          && (frozen[k].cadence.Some? ==> 1 <= frozen[k].cadence.value <= 3600))
    && !Conflicting(frozen)
  }

  /** What does not fit what was collected disagrees with a capture before. */
  lemma MisfitConflicts(frozen: seq<Reply>, n: nat, u: Updates)
    requires n < |frozen| && forall k :: 0 <= k < |frozen| ==> frozen[k].Captured?
    requires Collected(frozen, n, u)
    requires (exists name :: name in u.values && name in frozen[n].values && u.values[name] != frozen[n].values[name])
          || (u.cadence.Some? && frozen[n].cadence.Some? && u.cadence != frozen[n].cadence)
    ensures Conflicting(frozen)
  {
    if name :| name in u.values && name in frozen[n].values && u.values[name] != frozen[n].values[name] {
      var k :| 0 <= k < n && name in frozen[k].values;
      assert Disagree(frozen[k], frozen[n]);
    } else {
      var k :| 0 <= k < n && frozen[k].cadence.Some?;
      assert Disagree(frozen[k], frozen[n]);
    }
  }

  /** Merge every capture over one base; any disagreement stops here. */
  method Collect(frozen: seq<Reply>, base: Option<Digest>, owners: set<Name>, calm: bool)
    returns (res: Result<Updates, Code>)
    ensures res.Ok? ==> Mergeable(frozen, base, owners)
    ensures calm ==> (res.Ok? <==> Mergeable(frozen, base, owners))
    ensures res.Ok? ==> forall k :: 0 <= k < |frozen| ==> frozen[k].Captured? && frozen[k].base == base
    ensures res.Ok? ==> Collected(frozen, |frozen|, res.value)
    ensures res.Err? ==> res.error == Conflict || res.error == Invalid
    ensures Conflicting(frozen) ==> res.Err?
  {
    if exists k :: 0 <= k < |frozen| && !frozen[k].Captured? {
      return Err(Conflict);
    }
    var u := Updates(map[], None);
    for n := 0 to |frozen|
      invariant forall k :: 0 <= k < n ==>
                  && frozen[k].base == base && frozen[k].owners <= owners && frozen[k].values.Keys <= frozen[k].owners
                  && (frozen[k].cadence.Some? ==> 1 <= frozen[k].cadence.value <= 3600)
      invariant Collected(frozen, n, u)
    {
      var item := frozen[n];
      if item.base != base || !(item.owners <= owners) || !(item.values.Keys <= item.owners) {
        return Err(Conflict);
      }
      var valid: bool := *;
      if !valid && !calm {
        return Err(Invalid);
      }
      var merged := MergeValues(u.values, item.values);
      if merged.Err? {
        MisfitConflicts(frozen, n, u);
        return Err(Conflict);
      }
      if item.cadence.Some? {
        if !(1 <= item.cadence.value <= 3600) {
          return Err(Invalid);
        }
        if u.cadence.Some? && u.cadence != item.cadence {
          MisfitConflicts(frozen, n, u);
          return Err(Conflict);
        }
      }
      ghost var before := u;
      u := Updates(merged.value, if item.cadence.Some? then item.cadence else u.cadence);
      CollectedStep(frozen, n, before, u);
    }
    assert !Conflicting(frozen) by {
      forall i, j | 0 <= i < |frozen| && 0 <= j < |frozen|
        ensures !Disagree(frozen[i], frozen[j])
      {
        CollectedAgrees(frozen, u, i, j);
      }
    }
    return Ok(u);
  }

  function Override(base: Projection, u: Updates): Projection {
    base.(values := base.values + u.values, cadence := if u.cadence.Some? then u.cadence.value else base.cadence)
  }

  lemma OverrideIsMerge(base: Projection, frozen: seq<Reply>, u: Updates)
    requires forall k :: 0 <= k < |frozen| ==> frozen[k].Captured?
    requires Collected(frozen, |frozen|, u)
    ensures IsMerge(base, frozen, Override(base, u))
  {
  }

  // ------------------------------------------------------------- the cohort

  /** Distinct participants, each serving its own runtime over one shared store. */
  ghost predicate Cohort(store: ConfigurationStore, peers: seq<ConfigurationParticipant>)
    reads store, peers, set p: ConfigurationParticipant | p in peers :: p.runtime
  {
    && store.Valid()
    && (forall i, j :: 0 <= i < j < |peers| ==> peers[i] != peers[j])
    && forall p :: p in peers ==> p.runtime.store == store && p.runtime.participant == p && p.runtime.Valid()
  }

  /** The participants as they stand, in order. */
  ghost predicate Stand(peers: seq<ConfigurationParticipant>, models: seq<Peer>)
    reads peers, set p: ConfigurationParticipant | p in peers :: p.runtime
  {
    && |models| == |peers|
    && forall i :: 0 <= i < |peers| ==>
         peers[i].runtime.participant == peers[i] && models[i] == peers[i].runtime.Model()
  }

  /** The cohort's participants as values. */
  ghost function Models(peers: seq<ConfigurationParticipant>): (models: seq<Peer>)
    requires forall p :: p in peers ==> p.runtime.participant == p
    reads peers, set p: ConfigurationParticipant | p in peers :: p.runtime
    ensures Stand(peers, models) && |models| == |peers|
  {
    if peers == [] then []
    else
      var front := Models(peers[..|peers| - 1]);
      assert forall i :: 0 <= i < |peers| - 1 ==> peers[..|peers| - 1][i] == peers[i];
      front + [peers[|peers| - 1].runtime.Model()]
  }

  /** The participants read off, in whatever state they are. */
  ghost method Standing(store: ConfigurationStore, peers: seq<ConfigurationParticipant>, before: seq<Peer>)
    returns (now: seq<Peer>)
    requires Cohort(store, peers)
    ensures Stand(peers, now) && (Stand(peers, before) ==> now == before)
  {
    now := Models(peers);
  }

  ghost predicate AllValid(s: Store, models: seq<Peer>)
    requires Inv(s)
  {
    forall i :: 0 <= i < |models| ==> PeerInv(s, models[i])
  }

  /** A cohort's participants are valid. */
  lemma CohortValid(store: ConfigurationStore, peers: seq<ConfigurationParticipant>, now: seq<Peer>)
    requires Cohort(store, peers) && Stand(peers, now)
    ensures Inv(store.State()) && AllValid(store.State(), now)
  {
    hide PeerInv;
    forall i | 0 <= i < |now|
      ensures PeerInv(store.State(), now[i])
    {
      assert peers[i] in peers && peers[i].runtime.Valid();
    }
  }

  /** Whatever the rest of the world does between two steps of the coordinator: owners
      stage, reload, discard, flush on their own, answer any request or lose their
      channel, and other writers commit or recover. */
  method Interleave(store: ConfigurationStore, peers: seq<ConfigurationParticipant>, calm: bool,
                    ghost before: seq<Peer>)
    requires Cohort(store, peers) && Stand(peers, before)
    modifies store, peers, set p: ConfigurationParticipant | p in peers :: p.runtime
    ensures Cohort(store, peers)
    ensures Descends(old(store.State()), store.State())
    ensures calm ==> store.State() == old(store.State()) && Stand(peers, before)
  {
    hide Descends;
    SameDescends(store.State());
    var rounds: int := *;
    for n := 0 to if calm || rounds < 0 then 0 else rounds
      invariant Cohort(store, peers)
      invariant Descends(old(store.State()), store.State())
      invariant calm ==> store.State() == old(store.State()) && Stand(peers, before)
    {
      var i: int := *;
      ghost var s := store.State();
      if 0 <= i < |peers| {
        OwnerActs(store, peers, i);
      } else {
        OtherWriter(store, peers);
      }
      DescendsTransitive(old(store.State()), s, store.State());
    }
  }

  method OwnerActs(store: ConfigurationStore, peers: seq<ConfigurationParticipant>, i: nat)
    requires Cohort(store, peers) && i < |peers|
    modifies store, peers[i], peers[i].runtime
    ensures Cohort(store, peers)
    ensures Descends(old(store.State()), store.State())
  {
    hide Descends, PeerInv;
    ghost var s := store.State();
    SameDescends(s);
    var writes: bool := *;
    if writes {
      var authorized: bool := *;
      var _ := peers[i].runtime.Flush(authorized, false);
    } else {
      OwnerActsLocally(peers[i]);
    }
    forall p | p in peers && p != peers[i]
      ensures p.runtime.Valid() && p.runtime.participant == p
    {
      assert old(p.runtime.Valid());
      PeerInvStable(s, store.State(), p.runtime.Model());
    }
  }

  /** An owner's action that writes nothing to the store. */
  method OwnerActsLocally(peer: ConfigurationParticipant)
    requires peer.runtime.Valid() && peer.runtime.participant == peer
    modifies peer, peer.runtime
    ensures peer.runtime.Valid() && peer.runtime.participant == peer
  {
    var name: Name, value: Value, seconds: int := *, *, *;
    var choice: int := *;
    if choice == 0 {
      var _ := peer.runtime.Stage(name, value, false);
    } else if choice == 1 {
      var _ := peer.runtime.StageCadenceSeconds(seconds);
    } else if choice == 2 {
      var _ := peer.runtime.DiscardStaged(false);
    } else if choice == 3 {
      peer.ChannelFailed();
    } else if choice == 4 && seconds >= 0 {
      var message: Message := *;
      var _ := peer.Request(seconds, message, false);
    } else {
      var _, _ := peer.runtime.Reload(false);
    }
  }

  method OtherWriter(store: ConfigurationStore, peers: seq<ConfigurationParticipant>)
    requires Cohort(store, peers)
    modifies store
    ensures Cohort(store, peers)
    ensures Descends(old(store.State()), store.State())
  {
    var request: Request, candidate: Option<Digest>, recovers: bool := *, *, *;
    if recovers {
      RecoverFor(store, peers, candidate);
    } else {
      var _ := CommitFor(store, peers, request, true, false);
    }
  }

  method RecoverFor(store: ConfigurationStore, peers: seq<ConfigurationParticipant>, candidate: Option<Digest>)
    requires Cohort(store, peers)
    modifies store
    ensures Cohort(store, peers) && Descends(old(store.State()), store.State())
  {
    hide Descends, PeerInv;
    ghost var s := store.State();
    var _ := store.Recover(candidate, true, false);
    forall p | p in peers
      ensures p.runtime.Valid()
    {
      PeerInvStable(s, store.State(), p.runtime.Model());
    }
  }

  // -------------------------------------------------------------- flush_all

  /** The reply tells exactly what the participant froze, and it froze all it had staged. */
  ghost predicate Froze(q: Peer, transaction: nat, reply: Reply) {
    && reply.Captured? && q.pending.Some?
    && var f := q.pending.value;
       && f.transaction == transaction && f.proposal.None?
       && f.base == reply.base == DigestOf(q.accepted)
       && f.values == reply.values == q.staged
       && f.cadence == reply.cadence == q.stagedCadence
  }

  lemma CaptureReplies(s: Store, p: Peer, transaction: nat, q: Peer, res: Result<Reply, Error>)
    requires PeerInv(s, p) && Asked(s, p, transaction, Capture, q, res) && res.Ok?
    ensures Froze(q, transaction, res.value)
  {
    var seen :| AskedSeeing(s, p, transaction, Capture, q, res, seen);
    ReloadTakesSnapshot(p, seen);
  }

  lemma ReloadTakesSnapshot(p: Peer, seen: Observation)
    ensures var (q, res) := ReloadEdit(p, seen);
            res.Ok? ==> q.accepted == res.value
  {
  }

  /** One request over a channel: refused before delivery, answered, or answered with the
      acknowledgement lost. */
  method Call(store: ConfigurationStore, peers: seq<ConfigurationParticipant>, i: nat,
              transaction: nat, message: Message, calm: bool) returns (res: Result<Reply, Error>)
    requires Cohort(store, peers) && i < |peers|
    modifies peers[i], peers[i].runtime
    ensures Cohort(store, peers)
    ensures forall p :: p in peers && p != peers[i] ==> p.runtime.Model() == old(p.runtime.Model())
    ensures calm ==>
              var (q, reply) := Answer(store.State(), old(peers[i].runtime.Model()), transaction, message);
              peers[i].runtime.Model() == q && res == if reply.Ok? then reply else Fail(ParticipantRejected)
    ensures res.Ok? ==> Asked(store.State(), old(peers[i].runtime.Model()), transaction, message,
                              peers[i].runtime.Model(), res)
  {
    hide PeerInv, Ask, CalmReading, Inv, Descends, HandedOver, IntentDigest;
    var fault := Chance(calm);
    if fault.Some? {
      return Fail(fault.value);
    }
    res := peers[i].Request(transaction, message, calm);
    forall p | p in peers && p != peers[i]
      ensures p.runtime.Valid() && p.runtime.participant == p && p.runtime.Model() == old(p.runtime.Model())
    {
      assert old(p.runtime.Valid());
    }
    fault := Chance(calm);
    if fault.Some? {
      return Fail(fault.value);
    }
    if res.Err? {
      return Fail(ParticipantRejected);
    }
  }

  /** One request after whatever happens meanwhile. */
  method Deliver(store: ConfigurationStore, peers: seq<ConfigurationParticipant>, i: nat, transaction: nat,
                 message: Message, calm: bool, ghost before: seq<Peer>)
    returns (res: Result<Reply, Error>, ghost asked: Peer)
    requires Cohort(store, peers) && i < |peers| && Stand(peers, before)
    modifies store, peers, set p: ConfigurationParticipant | p in peers :: p.runtime
    ensures Cohort(store, peers) && Descends(old(store.State()), store.State()) && PeerInv(store.State(), asked)
    ensures res.Ok? ==> Asked(store.State(), asked, transaction, message, peers[i].runtime.Model(), res)
    ensures calm ==>
              var (q, reply) := Answer(old(store.State()), before[i], transaction, message);
              && store.State() == old(store.State()) && Stand(peers, before[i := q])
              && res == if reply.Ok? then reply else Fail(ParticipantRejected)
  {
    hide Descends, Answer, Asked, PeerInv, Inv;
    Interleave(store, peers, calm, before);
    asked := peers[i].runtime.Model();
    res := Call(store, peers, i, transaction, message, calm);
  }

  method CaptureOne(store: ConfigurationStore, peers: seq<ConfigurationParticipant>, i: nat, transaction: nat,
                    calm: bool, ghost before: seq<Peer>)
    returns (reply: Result<Reply, Error>, ghost capture: Peer, ghost now: seq<Peer>)
    requires Cohort(store, peers) && i < |peers| == |before| && Stand(peers, before)
    modifies store, peers, set p: ConfigurationParticipant | p in peers :: p.runtime
    ensures Cohort(store, peers) && Stand(peers, now) && Descends(old(store.State()), store.State())
    ensures |now| == |before|
    ensures reply.Ok? ==> Froze(capture, transaction, reply.value)
    ensures calm ==> store.State() == old(store.State()) && now == before[i := now[i]]
    ensures calm && Capturable(old(store.State()), before[i]) ==>
              && now[i] == Frozen(store.State(), before[i], transaction)
              && reply == Ok(CaptureReply(store.State(), before[i]))
  {
    hide Descends, Cohort, Froze, Capturable, Frozen, CaptureReply, Answer, Stand;
    CohortValid(store, peers, before);
    ghost var s, asked := store.State(), before[i];
    reply, asked := Deliver(store, peers, i, transaction, Capture, calm, before);
    capture := peers[i].runtime.Model();
    now := Standing(store, peers, before[i := Answer(s, before[i], transaction, Capture).0]);
    StandsFor(peers, now);
    if reply.Ok? {
      CaptureReplies(store.State(), asked, transaction, capture, reply);
    }
    if Capturable(s, before[i]) {
      CaptureAnswer(s, before[i], transaction);
    }
  }

  ghost predicate AllCapturable(s: Store, models: seq<Peer>)
    requires Inv(s)
  {
    forall i :: 0 <= i < |models| ==> Capturable(s, models[i])
  }

  /** The first `n` participants are frozen, the others as before. */
  ghost predicate FrozenUpTo(s: Store, models: seq<Peer>, transaction: nat, now: seq<Peer>, n: nat)
    requires Inv(s)
  {
    && |now| == |models|
    && forall i :: 0 <= i < |models| ==> now[i] == if i < n then Frozen(s, models[i], transaction) else models[i]
  }

  ghost function Replies(s: Store, models: seq<Peer>): (replies: seq<Reply>)
    ensures |replies| == |models| && forall i :: 0 <= i < |models| ==> replies[i] == CaptureReply(s, models[i])
  {
    seq(|models|, i requires 0 <= i < |models| => CaptureReply(s, models[i]))
  }

  /** The later participants are as before. */
  ghost predicate Untouched(models: seq<Peer>, now: seq<Peer>, n: nat) {
    |now| == |models| && forall i :: n <= i < |models| ==> now[i] == models[i]
  }

  lemma LaterStand(peers: seq<ConfigurationParticipant>, models: seq<Peer>, now: seq<Peer>, n: nat)
    requires Stand(peers, now) && Untouched(models, now, n)
    ensures forall i :: n <= i < |peers| ==> peers[i].runtime.Model() == models[i]
  {
  }

  lemma FrozenFirst(s: Store, models: seq<Peer>, transaction: nat)
    requires Inv(s)
    ensures FrozenUpTo(s, models, transaction, models, 0)
  {
  }

  lemma FrozenNext(s: Store, models: seq<Peer>, transaction: nat, now: seq<Peer>, n: nat)
    requires Inv(s) && n < |now|
    ensures AllCapturable(s, models) && FrozenUpTo(s, models, transaction, now, n) ==>
              && n < |models| && now[n] == models[n] && Capturable(s, now[n])
              && FrozenUpTo(s, models, transaction, now[n := Frozen(s, now[n], transaction)], n + 1)
  {
    hide Capturable, Frozen;
  }

  lemma StandsFor(peers: seq<ConfigurationParticipant>, models: seq<Peer>)
    requires Stand(peers, models)
    ensures |models| == |peers|
  {
  }

  /** Capture every participant in order. `attempted` counts the peers that may be frozen. */
  method CaptureAll(store: ConfigurationStore, peers: seq<ConfigurationParticipant>, transaction: nat, calm: bool,
                    ghost models: seq<Peer>)
    returns (res: Result<seq<Reply>, Error>, attempted: nat, ghost captures: seq<Peer>, ghost now: seq<Peer>)
    requires Cohort(store, peers) && Stand(peers, models)
    modifies store, peers, set p: ConfigurationParticipant | p in peers :: p.runtime
    ensures Cohort(store, peers) && Stand(peers, now) && attempted <= |peers|
    ensures Descends(old(store.State()), store.State())
    ensures res.Ok? ==> attempted == |res.value| == |captures| == |peers|
    ensures res.Ok? ==> forall k :: 0 <= k < |peers| ==> Froze(captures[k], transaction, res.value[k])
    ensures calm && AllCapturable(old(store.State()), models) ==>
              && store.State() == old(store.State()) && res == Ok(Replies(store.State(), models))
              && FrozenUpTo(store.State(), models, transaction, now, |models|)
    ensures calm ==> Untouched(models, now, attempted)
  {
    hide Descends, Froze, Cohort, Capturable, Frozen, CaptureReply, Inv, AllCapturable, FrozenUpTo, Replies, Stand;
    var frozen: seq<Reply> := [];
    captures, attempted, now := [], 0, models;
    CohortValid(store, peers, models);
    StandsFor(peers, models);
    FrozenFirst(store.State(), models, transaction);
    SameDescends(store.State());
    while attempted < |peers|
      invariant Cohort(store, peers) && Stand(peers, now) && attempted <= |peers| == |models| == |now|
      invariant Descends(old(store.State()), store.State())
      invariant |frozen| == |captures| == attempted
      invariant forall k :: 0 <= k < attempted ==> Froze(captures[k], transaction, frozen[k])
      invariant calm ==> Untouched(models, now, attempted)
      invariant calm && AllCapturable(old(store.State()), models) ==>
                  && store.State() == old(store.State())
                  && FrozenUpTo(store.State(), models, transaction, now, attempted)
                  && forall k :: 0 <= k < attempted ==> frozen[k] == CaptureReply(store.State(), models[k])
    {
      ghost var s := store.State();
      var reply;
      ghost var capture;
      CohortValid(store, peers, now);
      FrozenNext(s, models, transaction, now, attempted);
      reply, capture, now := CaptureOne(store, peers, attempted, transaction, calm, now);
      DescendsTransitive(old(store.State()), s, store.State());
      if reply.Err? {
        return Err(reply.error), attempted + 1, captures, now;
      }
      frozen, captures := frozen + [reply.value], captures + [capture];
      attempted := attempted + 1;
    }
    if calm && AllCapturable(old(store.State()), models) {
      assert frozen == Replies(store.State(), models);
    }
    return Ok(frozen), attempted, captures, now;
  }

  /** What a participant holds when it has answered a prepare or a finish with what was expected. */
  ghost predicate Obeys(q: Peer, transaction: nat, message: Message) {
    match message
    case Prepare(proposal) =>
      q.pending.Some? && q.pending.value.transaction == transaction && q.pending.value.proposal == Some(proposal)
    case Finish(digest) => q.pending.None? && DigestOf(q.accepted) == digest
    case _ => true
  }

  /** The answer to expect. */
  function Expected(message: Message): Reply {
    match message
    case Prepare(proposal) => Prepared(proposal)
    case Finish(digest) => Finished(digest)
    case _ => Aborted
  }

  lemma ObeyedReplies(s: Store, p: Peer, transaction: nat, message: Message, q: Peer)
    requires Inv(s) && Asked(s, p, transaction, message, q, Ok(Expected(message)))
    ensures Obeys(q, transaction, message)
  {
    hide Ask, Obeys;
    var seen :| AskedSeeing(s, p, transaction, message, q, Ok(Expected(message)), seen);
    match message
    case Prepare(proposal) => PrepareObeyed(p, transaction, proposal, IntentDigest(s), seen);
    case Finish(digest) => FinishObeyed(p, transaction, digest, IntentDigest(s), seen);
    case _ => NothingToObey(q, transaction, message);
  }

  lemma NothingToObey(q: Peer, transaction: nat, message: Message)
    requires !message.Prepare? && !message.Finish?
    ensures Obeys(q, transaction, message)
  {
  }

  lemma PrepareObeyed(p: Peer, transaction: nat, proposal: Projection, intent: Option<Digest>, seen: Observation)
    ensures var (q, res) := Ask(p, transaction, Prepare(proposal), intent, seen);
            res.Ok? ==> Obeys(q, transaction, Prepare(proposal))
  {
    hide Honours;
  }

  lemma FinishObeyed(p: Peer, transaction: nat, digest: Option<Digest>, intent: Option<Digest>, seen: Observation)
    ensures var (q, res) := Ask(p, transaction, Finish(digest), intent, seen);
            res.Ok? ==> Obeys(q, transaction, Finish(digest))
  {
    hide CaptureEdits, PrepareEdits, AbortEdits, Fulfils;
  }

  /** Everybody gives the expected answer. */
  ghost predicate AllWilling(s: Store, models: seq<Peer>, transaction: nat, message: Message)
    requires Inv(s)
  {
    forall i :: 0 <= i < |models| ==> Answer(s, models[i], transaction, message).1 == Ok(Expected(message))
  }

  /** The first `n` participants have been asked, the others are as before. */
  ghost predicate AskedUpTo(s: Store, models: seq<Peer>, transaction: nat, message: Message, now: seq<Peer>, n: nat)
    requires Inv(s)
  {
    && |now| == |models|
    && forall i :: 0 <= i < |models| ==>
         now[i] == if i < n then Answer(s, models[i], transaction, message).0 else models[i]
  }

  lemma NobodyAsked(s: Store, models: seq<Peer>, transaction: nat, message: Message)
    requires Inv(s)
    ensures AskedUpTo(s, models, transaction, message, models, 0)
  {
  }

  lemma NextAsked(s: Store, models: seq<Peer>, transaction: nat, message: Message, now: seq<Peer>, i: nat)
    requires Inv(s) && i < |models| == |now|
    ensures AllWilling(s, models, transaction, message) && AskedUpTo(s, models, transaction, message, now, i) ==>
              var (q, reply) := Answer(s, now[i], transaction, message);
              && reply == Ok(Expected(message))
              && AskedUpTo(s, models, transaction, message, now[i := q], i + 1)
  {
    hide Answer, Expected, Inv;
  }

  /** Send one message to every participant; stop at the first that does not answer as expected. */
  method AskAll(store: ConfigurationStore, peers: seq<ConfigurationParticipant>, transaction: nat,
                message: Message, calm: bool, ghost models: seq<Peer>)
    returns (failure: Option<Error>, ghost states: seq<Peer>, ghost now: seq<Peer>)
    requires Cohort(store, peers) && Stand(peers, models)
    modifies store, peers, set p: ConfigurationParticipant | p in peers :: p.runtime
    ensures Cohort(store, peers) && Stand(peers, now)
    ensures Descends(old(store.State()), store.State())
    ensures failure.None? ==> |states| == |peers| && forall q :: q in states ==> Obeys(q, transaction, message)
    ensures calm && AllWilling(old(store.State()), models, transaction, message) ==>
              && failure.None? && store.State() == old(store.State())
              && AskedUpTo(store.State(), models, transaction, message, now, |models|)
  {
    hide Descends, Obeys, PeerInv, Answer, Inv, Expected, AllWilling, AskedUpTo;
    SameDescends(store.State());
    states, now := [], models;
    NobodyAsked(store.State(), models, transaction, message);
    for i := 0 to |peers|
      invariant Cohort(store, peers) && Stand(peers, now)
      invariant Descends(old(store.State()), store.State())
      invariant |states| == i && forall q :: q in states ==> Obeys(q, transaction, message)
      invariant calm && AllWilling(old(store.State()), models, transaction, message) ==>
                  && store.State() == old(store.State())
                  && AskedUpTo(store.State(), models, transaction, message, now, i)
    {
      ghost var s := store.State();
      var reply;
      ghost var asked;
      reply, asked := Deliver(store, peers, i, transaction, message, calm, now);
      DescendsTransitive(old(store.State()), s, store.State());
      NextAsked(old(store.State()), models, transaction, message, now, i);
      now := Standing(store, peers, now[i := Answer(s, now[i], transaction, message).0]);
      if reply.Err? {
        return Some(reply.error), states, now;
      }
      if reply.value != Expected(message) {
        return Some(Error(Conflict, None)), states, now;
      }
      ObeyedReplies(store.State(), asked, transaction, message, peers[i].runtime.Model());
      states := states + [peers[i].runtime.Model()];
    }
    return None, states, now;
  }

  /** Unless another writer's candidate is pending, or HEAD is incomplete for the participant, it holds no freeze of
      this transaction any more. */
  ghost predicate Released(s: Store, q: Peer, transaction: nat)
    requires Inv(s)
  {
    (s.intent.Some? ==> IntentDigest(s) == HeadDigest(s)) && Complete(q, HeadSnapshot(s), true) ==>
      q.pending.None? || q.pending.value.transaction != transaction
  }

  lemma AbortReleases(s: Store, p: Peer, transaction: nat)
    requires PeerInv(s, p)
    ensures Released(s, Ask(p, transaction, Abort, IntentDigest(s), CalmReading(s, None)).0, transaction)
  {
    CalmReads(s, None);
    if p.pending.Some? {
      AbortExact(p, IntentDigest(s), CalmReading(s, None));
    }
  }

  /** Release the freezes of the peers that may hold one; failures are ignored. */
  method AbortAll(store: ConfigurationStore, peers: seq<ConfigurationParticipant>, transaction: nat, attempted: nat,
                  calm: bool)
    requires Cohort(store, peers) && attempted <= |peers|
    modifies peers, set p: ConfigurationParticipant | p in peers :: p.runtime
    ensures Cohort(store, peers)
    ensures calm ==> forall i :: 0 <= i < attempted ==> Released(store.State(), peers[i].runtime.Model(), transaction)
    ensures forall i :: attempted <= i < |peers| ==> peers[i].runtime.Model() == old(peers[i].runtime.Model())
  {
    hide Released, PeerInv;
    for i := 0 to attempted
      invariant Cohort(store, peers)
      invariant calm ==> forall k :: 0 <= k < i ==> Released(store.State(), peers[k].runtime.Model(), transaction)
      invariant forall k :: attempted <= k < |peers| ==> peers[k].runtime.Model() == old(peers[k].runtime.Model())
    {
      ghost var before := peers[i].runtime.Model();
      var _ := Call(store, peers, i, transaction, Abort, calm);
      AbortReleases(store.State(), before, transaction);
    }
  }

  /** The codes after which the coordinator releases the cohort although it dispatched. */
  predicate SafeToAbort(code: Code) {
    code in {Conflict, Busy, Unauthorized, Invalid, Limit, SigningFailed, Pending}
  }

  /** What one coordinated save did. */
  datatype Report = Report(author: Provenance, frozen: seq<Reply>, base: Option<Digest>, settings: Projection,
                           reached: nat, dispatched: bool, aborted: bool)

  /** The participants as each of them answered the capture, the prepare and the finish. */
  datatype Trace = Trace(captures: seq<Peer>, approved: seq<Peer>, confirmed: seq<Peer>)

  /** Some capture holds a proposal. */
  ghost predicate Proposes(frozen: seq<Reply>) {
    exists k :: 0 <= k < |frozen| && frozen[k].Captured? && (frozen[k].values != map[] || frozen[k].cadence.Some?)
  }

  lemma NothingCollected(frozen: seq<Reply>, u: Updates)
    requires forall k :: 0 <= k < |frozen| ==> frozen[k].Captured?
    requires Collected(frozen, |frozen|, u)
    ensures Proposes(frozen) <==> u != Updates(map[], None)
  {
    if u.values != map[] {
      var name :| name in u.values;
      var k :| 0 <= k < |frozen| && name in frozen[k].values;
      assert frozen[k].values != map[];
    }
    if k :| 0 <= k < |frozen| && frozen[k].values != map[] {
      var name :| name in frozen[k].values;
      assert name in u.values;
    }
  }

  ghost predicate AllConfirm(trace: Trace, peers: nat, transaction: nat, digest: Option<Digest>) {
    |trace.confirmed| == peers && forall q :: q in trace.confirmed ==> Obeys(q, transaction, Finish(digest))
  }

  ghost predicate AllApprove(trace: Trace, peers: nat, transaction: nat, proposal: Projection) {
    |trace.approved| == peers && forall q :: q in trace.approved ==> Obeys(q, transaction, Prepare(proposal))
  }

  /** Everybody approved the one proposal that is the merge of what was captured. */
  ghost predicate Approved(trace: Trace, peers: nat, transaction: nat, settings: Projection, frozen: seq<Reply>)
    requires forall k :: 0 <= k < |frozen| ==> frozen[k].Captured?
  {
    exists proposal :: IsMerge(settings, frozen, proposal) && AllApprove(trace, peers, transaction, proposal)
  }

  ghost predicate AllFroze(trace: Trace, peers: nat, transaction: nat, frozen: seq<Reply>) {
    && |trace.captures| == |frozen| == peers
    && forall k :: 0 <= k < peers ==> Froze(trace.captures[k], transaction, frozen[k])
  }

  /** A committed save: one child of the base that every peer captured, carrying the
      base overridden by exactly the union of the captured proposals. */
  ghost predicate Saved(store: Store, transaction: nat, report: Report, snapshot: Option<Snapshot>)
    requires Inv(store)
  {
    var frozen, base, settings := report.frozen, report.base, report.settings;
    && (forall k :: 0 <= k < |frozen| ==> frozen[k].Captured? && frozen[k].base == base)
    && snapshot.Some?
    && Committed(store, transaction, base, snapshot.value.record.settings, snapshot)
    && snapshot.value.record.provenance == Some(report.author.(operation := Token(transaction)))
    && IsMerge(settings, frozen, snapshot.value.record.settings)
    && (base.Some? ==> base.value in store.objects && store.objects[base.value].settings == settings)
    && (base.None? ==> settings == Projection(map[], 60, map[]))
  }

  /** The snapshot is a stored child of `base` in HEAD's ancestry, with these settings. */
  ghost predicate Committed(store: Store, transaction: nat, base: Option<Digest>, settings: Projection,
                            snapshot: Option<Snapshot>)
    requires Inv(store)
  {
    && snapshot.Some?
    && var record := snapshot.value.record;
       && record.parent == base && record.settings == settings
       && record.provenance.Some? && record.provenance.value.operation == Token(transaction)
       && snapshot.value.digest in store.objects && store.objects[snapshot.value.digest] == record
       && store.head.Some? && IsAncestor(store.objects, snapshot.value.digest, store.head.value.digest)
  }

  /** The settings a save starts from: the accepted revision's, or the defaults. */
  function BaseSettings(accepted: Option<Snapshot>): Projection {
    if accepted.None? then Projection(map[], 60, map[]) else accepted.value.record.settings
  }

  // ----- when an undisturbed save goes through -----

  /** Everybody can be captured; what they have staged merges into the proposal over HEAD; and where anything is staged
      everybody can approve the proposal and the store takes it. */
  ghost predicate Saveable(s: Store, models: seq<Peer>, proposal: Projection)
    requires Inv(s)
  {
    && models != [] && AllCapturable(s, models)
    && (forall p :: p in models ==> p.owners <= models[0].owners && p.staged.Keys <= p.owners)
    && IsMerge(BaseSettings(HeadSnapshot(s)), Replies(s, models), proposal)
    && (Proposes(Replies(s, models)) ==>
          && AllApprovable(models, proposal)
          && CommitRefusal(s, Request(proposal, HeadDigest(s), false, None)).None?)
  }

  ghost predicate CanSave(s: Store, models: seq<Peer>)
    requires Inv(s)
  {
    exists proposal :: Saveable(s, models, proposal)
  }

  ghost predicate AllApprovable(models: seq<Peer>, proposal: Projection) {
    forall i :: 0 <= i < |models| ==> Approvable(models[i], proposal)
  }

  /** Everybody is captured over HEAD. */
  ghost predicate AllFrozen(s: Store, models: seq<Peer>, transaction: nat, now: seq<Peer>)
    requires Inv(s)
  {
    AllCapturable(s, models) && FrozenUpTo(s, models, transaction, now, |models|)
  }

  /** Everybody approved the proposal. */
  ghost predicate AllApproving(s: Store, models: seq<Peer>, transaction: nat, proposal: Projection, now: seq<Peer>)
    requires Inv(s)
  {
    && AllCapturable(s, models) && AllApprovable(models, proposal) && |now| == |models|
    && forall i :: 0 <= i < |models| ==> now[i] == Approving(s, models[i], transaction, proposal)
  }

  lemma AllPrepare(s: Store, models: seq<Peer>, transaction: nat, proposal: Projection, frozen: seq<Peer>)
    requires Inv(s) && AllFrozen(s, models, transaction, frozen) && AllApprovable(models, proposal)
    ensures AllWilling(s, frozen, transaction, Prepare(proposal))
    ensures forall now :: AskedUpTo(s, frozen, transaction, Prepare(proposal), now, |frozen|) ==>
              AllApproving(s, models, transaction, proposal, now)
  {
    hide Answer, Frozen, Approving, Capturable, Approvable;
    forall i | 0 <= i < |models|
      ensures Answer(s, frozen[i], transaction, Prepare(proposal))
           == (Approving(s, models[i], transaction, proposal), Ok(Expected(Prepare(proposal))))
    {
      PrepareAnswer(s, models[i], transaction, proposal);
    }
  }

  lemma AllFinish(s: Store, t: Store, models: seq<Peer>, transaction: nat, proposal: Projection, now: seq<Peer>)
    requires Inv(s) && Inv(t) && AllApproving(s, models, transaction, proposal, now) && AllValid(t, now)
    requires Holds(s, t, transaction, proposal)
    ensures AllWilling(t, now, transaction, Finish(HeadDigest(t)))
  {
    hide Answer, Frozen, Approving, Capturable, Approvable, PeerInv, Holds;
    forall i | 0 <= i < |models|
      ensures Answer(t, now[i], transaction, Finish(HeadDigest(t))).1 == Ok(Expected(Finish(HeadDigest(t))))
    {
      FinishAnswer(s, t, models[i], transaction, proposal);
    }
  }

  lemma AllFinishNothing(s: Store, models: seq<Peer>, transaction: nat, now: seq<Peer>)
    requires Inv(s) && AllFrozen(s, models, transaction, now) && AllValid(s, now)
    ensures AllWilling(s, now, transaction, Finish(HeadDigest(s)))
  {
    hide Answer, Frozen, Capturable, PeerInv;
    forall i | 0 <= i < |models|
      ensures Answer(s, now[i], transaction, Finish(HeadDigest(s))).1 == Ok(Expected(Finish(HeadDigest(s))))
    {
      FinishNothing(s, models[i], transaction);
    }
  }

  /** The captures of a save that can go through merge over HEAD. */
  lemma SaveableMerges(s: Store, models: seq<Peer>, proposal: Projection)
    requires Inv(s) && Saveable(s, models, proposal)
    ensures Mergeable(Replies(s, models), HeadDigest(s), models[0].owners)
  {
    hide Capturable, CommitRefusal;
    var frozen := Replies(s, models);
    MergeAgrees(BaseSettings(HeadSnapshot(s)), frozen, proposal);
    forall i | 0 <= i < |models|
      ensures frozen[i].owners <= models[0].owners && frozen[i].values.Keys <= frozen[i].owners
      ensures frozen[i].cadence.Some? ==> 1 <= frozen[i].cadence.value <= 3600
    {
      assert models[i] in models;
      if frozen[i].cadence.Some? {
        assert Proposes(frozen) && Approvable(models[i], proposal);
      }
    }
  }

  /** Freeze, merge, validate everywhere, persist once, verify everywhere. */
  method FlushAll(store: ConfigurationStore, peers: seq<ConfigurationParticipant>, transaction: nat, authorized: bool,
                  calm: bool)
    returns (res: Result<Option<Snapshot>, Error>, report: Report, ghost trace: Trace, ghost wrote: bool)
    requires Cohort(store, peers) && |peers| > 0
    modifies store, peers, set p: ConfigurationParticipant | p in peers :: p.runtime
    ensures Cohort(store, peers) && Descends(old(store.State()), store.State())
    ensures report.author == old(peers[0].runtime.provenance)
    ensures res.Ok? && report.dispatched ==> Saved(store.State(), transaction, report, res.value)
    ensures res.Ok? || report.dispatched ==> AllFroze(trace, |peers|, transaction, report.frozen)
    ensures report.dispatched ==> Proposes(report.frozen)
                                  && Approved(trace, |peers|, transaction, report.settings, report.frozen)
    ensures res.Ok? ==> AllConfirm(trace, |peers|, transaction, DigestOf(res.value))
    ensures res.Ok? && Proposes(report.frozen) ==> report.dispatched
    ensures res.Ok? && !report.dispatched ==> DigestOf(res.value) == report.base
    ensures Conflicting(report.frozen) ==> !report.dispatched && res.Err?
    ensures res.Ok? || report.dispatched ==> Mergeable(report.frozen, report.base, peers[0].runtime.owners)
    ensures wrote ==> report.dispatched && !report.aborted
    ensures !authorized ==> !wrote
    ensures report.aborted <==>
              res.Err? && (report.dispatched ==>
                             res.error.code in {Conflict, Busy, Unauthorized, Invalid, Limit, SigningFailed, Pending})
    ensures calm && report.aborted ==>
              forall i :: 0 <= i < report.reached <= |peers| ==>
                Released(store.State(), peers[i].runtime.Model(), transaction)
    ensures calm && report.aborted ==>
              forall i :: report.reached <= i < |peers| ==> peers[i].runtime.Model() == old(Models(peers))[i]
    ensures |report.frozen| <= report.reached <= |peers|
    ensures calm && authorized && CanSave(old(store.State()), old(Models(peers))) ==> res.Ok?
  {
    hide Descends, Saved, Froze, AllFroze, Approved, AllConfirm, Proposes, Released, Conflicting, CanSave,
      AllCapturable, FrozenUpTo, Stand, FrozenTo, Replies, PeerInv, Mergeable;
    var author := peers[0].runtime.provenance;
    var captured, attempted;
    ghost var captures, now;
    ghost var models := Models(peers);
    SaveableCaptures(store.State(), models);
    captured, attempted, captures, now := CaptureAll(store, peers, transaction, calm, models);
    trace := Trace(captures, [], []);
    ghost var start := store.State();
    if captured.Err? {
      report := Report(author, [], None, BaseSettings(None), attempted, false, false);
      res, wrote := Err(captured.error), false;
      NothingConflicts();
      if calm {
        LaterStand(peers, models, now, attempted);
      }
    } else {
      EverybodyFroze(trace, |peers|, transaction, captured.value);
      CapturedAll(start, models, transaction, now, captured.value);
      res, report, trace, wrote := MergeAndSave(store, peers, transaction, authorized, author, captured.value, calm,
                                                trace, models, now);
      DescendsTransitive(old(store.State()), start, store.State());
    }
    if res.Err? && (!report.dispatched || SafeToAbort(res.error.code)) {
      report := report.(aborted := true);
      AbortAll(store, peers, transaction, attempted, calm);
    }
  }

  lemma SaveableCaptures(s: Store, models: seq<Peer>)
    requires Inv(s)
    ensures CanSave(s, models) ==> AllCapturable(s, models)
  {
  }

  /** Everybody is frozen: merge what they captured over the coordinator's accepted revision, and save it. */
  /** Everybody is captured over HEAD, with these replies. */
  ghost predicate FrozenTo(s: Store, models: seq<Peer>, transaction: nat, now: seq<Peer>, frozen: seq<Reply>)
    requires Inv(s)
  {
    AllFrozen(s, models, transaction, now) && frozen == Replies(s, models)
  }

  lemma CapturedAll(s: Store, models: seq<Peer>, transaction: nat, now: seq<Peer>, frozen: seq<Reply>)
    requires Inv(s)
    ensures AllCapturable(s, models) && FrozenUpTo(s, models, transaction, now, |models|)
            && frozen == Replies(s, models) ==>
              FrozenTo(s, models, transaction, now, frozen)
  {
    hide AllCapturable, FrozenUpTo, Replies;
  }

  lemma FrozenMerges(s: Store, models: seq<Peer>, transaction: nat, now: seq<Peer>, frozen: seq<Reply>)
    requires Inv(s) && now != []
    ensures FrozenTo(s, models, transaction, now, frozen) && CanSave(s, models) ==>
              && now[0].accepted == HeadSnapshot(s) && Mergeable(frozen, DigestOf(now[0].accepted), now[0].owners)
  {
    if FrozenTo(s, models, transaction, now, frozen) && CanSave(s, models) {
      var proposal :| Saveable(s, models, proposal);
      SaveableMerges(s, models, proposal);
      HeadIsSnapshot(s);
    }
  }

  method MergeAndSave(store: ConfigurationStore, peers: seq<ConfigurationParticipant>, transaction: nat,
                      authorized: bool, author: Provenance, frozen: seq<Reply>, calm: bool, ghost captured: Trace,
                      ghost models: seq<Peer>, ghost now: seq<Peer>)
    returns (res: Result<Option<Snapshot>, Error>, report: Report, ghost trace: Trace, ghost wrote: bool)
    requires Cohort(store, peers) && |peers| > 0 && AllFroze(captured, |peers|, transaction, frozen)
    requires Stand(peers, now) && |models| == |peers|
    modifies store, peers, set p: ConfigurationParticipant | p in peers :: p.runtime
    ensures Cohort(store, peers) && Descends(old(store.State()), store.State())
    ensures report == Report(author, frozen, report.base, report.settings, |peers|, report.dispatched, false)
    ensures AllFroze(trace, |peers|, transaction, frozen)
    ensures res.Ok? && report.dispatched ==> Saved(store.State(), transaction, report, res.value)
    ensures report.dispatched ==> Proposes(frozen) && Approved(trace, |peers|, transaction, report.settings, frozen)
    ensures res.Ok? ==> AllConfirm(trace, |peers|, transaction, DigestOf(res.value))
    ensures res.Ok? && Proposes(frozen) ==> report.dispatched
    ensures res.Ok? && !report.dispatched ==> DigestOf(res.value) == report.base
    ensures Conflicting(frozen) ==> !report.dispatched && res.Err?
    ensures res.Ok? || report.dispatched ==> Mergeable(frozen, report.base, peers[0].runtime.owners)
    ensures wrote ==> report.dispatched && (res.Err? ==> !SafeToAbort(res.error.code))
    ensures !authorized ==> !wrote
    ensures calm && authorized && FrozenTo(old(store.State()), models, transaction, now, frozen)
              && CanSave(old(store.State()), models) ==>
              res.Ok?
  {
    hide Descends, Saved, AllFroze, Approved, AllConfirm, Proposes, Conflicting, CanSave, Mergeable, FrozenTo;
    SameDescends(store.State());
    var accepted := peers[0].runtime.accepted;
    report := Report(author, frozen, DigestOf(accepted), BaseSettings(accepted), |peers|, false, false);
    trace, wrote := captured, false;
    var merged := Collect(frozen, report.base, peers[0].runtime.owners, calm);
    FrozenMerges(store.State(), models, transaction, now, frozen);
    if merged.Err? {
      return Fail(merged.error), report, trace, wrote;
    }
    var dispatched;
    res, dispatched, trace, wrote :=
      Save(store, peers, transaction, authorized, report, merged.value, accepted, calm, trace, models, now);
    if dispatched {
      DispatchedToo(store.State(), transaction, report, res);
    }
    report := report.(dispatched := dispatched);
  }

  /** Whether it was dispatched is no part of what was saved. */
  lemma DispatchedToo(s: Store, transaction: nat, report: Report, res: Result<Option<Snapshot>, Error>)
    requires Inv(s) && (res.Ok? ==> Saved(s, transaction, report, res.value))
    ensures res.Ok? ==> Saved(s, transaction, report.(dispatched := true), res.value)
  {
  }

  lemma NothingConflicts()
    ensures !Conflicting([])
  {
  }

  lemma EverybodyFroze(trace: Trace, peers: nat, transaction: nat, frozen: seq<Reply>)
    requires |trace.captures| == |frozen| == peers
    requires forall k :: 0 <= k < peers ==> Froze(trace.captures[k], transaction, frozen[k])
    ensures AllFroze(trace, peers, transaction, frozen)
  {
  }

  lemma CapturesCount(trace: Trace, later: Trace, peers: nat, transaction: nat, frozen: seq<Reply>)
    requires AllFroze(trace, peers, transaction, frozen) && later.captures == trace.captures
    ensures AllFroze(later, peers, transaction, frozen)
  {
  }

  /** With the merge done: prepare and commit it, or only finish when nothing was proposed. */
  method Save(store: ConfigurationStore, peers: seq<ConfigurationParticipant>, transaction: nat, authorized: bool,
              before: Report, merged: Updates, accepted: Option<Snapshot>, calm: bool, ghost captured: Trace,
              ghost models: seq<Peer>, ghost now: seq<Peer>)
    returns (res: Result<Option<Snapshot>, Error>, dispatched: bool, ghost trace: Trace, ghost wrote: bool)
    requires Cohort(store, peers) && |peers| > 0
    requires forall k :: 0 <= k < |before.frozen| ==> before.frozen[k].Captured? && before.frozen[k].base == before.base
    requires Collected(before.frozen, |before.frozen|, merged)
    requires before.base == DigestOf(accepted) && before.settings == BaseSettings(accepted)
    requires AcceptedInv(store.State(), accepted) && AllFroze(captured, |peers|, transaction, before.frozen)
    requires Stand(peers, now) && |models| == |peers|
    modifies store, peers, set p: ConfigurationParticipant | p in peers :: p.runtime
    ensures Cohort(store, peers) && Descends(old(store.State()), store.State())
    ensures res.Ok? && dispatched ==> Saved(store.State(), transaction, before, res.value)
    ensures wrote ==> dispatched && (res.Err? ==> !SafeToAbort(res.error.code))
    ensures !authorized ==> !wrote
    ensures AllFroze(trace, |peers|, transaction, before.frozen)
    ensures res.Ok? ==> AllConfirm(trace, |peers|, transaction, DigestOf(res.value))
    ensures dispatched ==> Proposes(before.frozen)
                           && Approved(trace, |peers|, transaction, before.settings, before.frozen)
    ensures res.Ok? && Proposes(before.frozen) ==> dispatched
    ensures res.Ok? && !dispatched ==> res.value == accepted
    ensures calm && authorized && FrozenTo(old(store.State()), models, transaction, now, before.frozen)
              && accepted == HeadSnapshot(old(store.State())) && CanSave(old(store.State()), models) ==>
              res.Ok?
  {
    hide Descends, Cohort, Saved, Committed, IsMerge, Collected, AllFroze, AllConfirm, AllApprove, Obeys, Proposes,
      CanSave, FrozenTo, AllFrozen, AllWilling, Stand, AllValid, AllApprovable, CommitRefusal;
    dispatched, wrote, trace := false, false, captured;
    CohortValid(store, peers, now);
    NothingCollected(before.frozen, merged);
    if merged == Updates(map[], None) {
      ghost var confirmed;
      NothingToSave(store.State(), models, transaction, now, before.frozen);
      res, confirmed := FinishAll(store, peers, transaction, accepted, calm, now);
      trace := captured.(confirmed := confirmed);
      CapturesCount(captured, trace, |peers|, transaction, before.frozen);
      Confirmed(trace, |peers|, transaction, accepted, res);
      return;
    }
    OverrideIsMerge(before.settings, before.frozen, merged);
    var proposed := Override(before.settings, merged);
    ghost var approved, confirmed;
    MergedIsSaveable(store.State(), models, transaction, now, before, accepted, proposed);
    res, dispatched, approved, confirmed, wrote :=
      SaveMerged(store, peers, transaction, authorized, before.author, before.base, proposed, calm, models, now);
    trace := Trace(captured.captures, approved, confirmed);
    CapturesCount(captured, trace, |peers|, transaction, before.frozen);
    if res.Ok? {
      Confirmed(trace, |peers|, transaction, res.value, res);
    }
    if dispatched {
      ApprovedBy(trace, |peers|, transaction, proposed);
    }
    CommittedIsSaved(old(store.State()), store.State(), transaction, before, accepted, proposed, res);
  }

  lemma NothingToSave(s: Store, models: seq<Peer>, transaction: nat, now: seq<Peer>, frozen: seq<Reply>)
    requires Inv(s) && AllValid(s, now)
    ensures FrozenTo(s, models, transaction, now, frozen) ==>
              AllWilling(s, now, transaction, Finish(DigestOf(HeadSnapshot(s))))
  {
    if FrozenTo(s, models, transaction, now, frozen) {
      AllFinishNothing(s, models, transaction, now);
      HeadIsSnapshot(s);
    }
  }

  /** What was merged is the one proposal the save can go through with. */
  lemma MergedIsSaveable(s: Store, models: seq<Peer>, transaction: nat, now: seq<Peer>, before: Report,
                         accepted: Option<Snapshot>, proposed: Projection)
    requires Inv(s) && forall k :: 0 <= k < |before.frozen| ==> before.frozen[k].Captured?
    requires IsMerge(before.settings, before.frozen, proposed) && Proposes(before.frozen)
    requires before.settings == BaseSettings(accepted) && before.base == DigestOf(accepted)
    ensures FrozenTo(s, models, transaction, now, before.frozen) && accepted == HeadSnapshot(s) && CanSave(s, models)
            ==>
              && AllFrozen(s, models, transaction, now) && AllApprovable(models, proposed)
              && before.base == HeadDigest(s) && CommitRefusal(s, Request(proposed, before.base, false, None)).None?
  {
    hide IsMerge, Proposes, AllFrozen, CommitRefusal, AllApprovable, AllCapturable;
    HeadIsSnapshot(s);
    if FrozenTo(s, models, transaction, now, before.frozen) && accepted == HeadSnapshot(s) && CanSave(s, models) {
      var proposal :| Saveable(s, models, proposal);
      MergeUnique(before.settings, before.frozen, proposed, proposal);
    }
  }

  lemma Confirmed(trace: Trace, peers: nat, transaction: nat, snapshot: Option<Snapshot>,
                  res: Result<Option<Snapshot>, Error>)
    requires res.Ok? ==>
               && |trace.confirmed| == peers
               && forall q :: q in trace.confirmed ==> Obeys(q, transaction, Finish(DigestOf(snapshot)))
    ensures res.Ok? ==> AllConfirm(trace, peers, transaction, DigestOf(snapshot))
  {
    hide Obeys;
  }

  lemma ApprovedBy(trace: Trace, peers: nat, transaction: nat, proposal: Projection)
    requires |trace.approved| == peers
    requires forall q :: q in trace.approved ==> Obeys(q, transaction, Prepare(proposal))
    ensures AllApprove(trace, peers, transaction, proposal)
  {
    hide Obeys;
  }

  method SaveMerged(store: ConfigurationStore, peers: seq<ConfigurationParticipant>, transaction: nat, authorized: bool,
                    author: Provenance, base: Option<Digest>, proposed: Projection, calm: bool,
                    ghost models: seq<Peer>, ghost now: seq<Peer>)
    returns (res: Result<Option<Snapshot>, Error>, dispatched: bool, ghost approved: seq<Peer>,
             ghost confirmed: seq<Peer>, ghost wrote: bool)
    requires Cohort(store, peers) && |peers| > 0 && Stand(peers, now)
    modifies store, peers, set p: ConfigurationParticipant | p in peers :: p.runtime
    ensures Cohort(store, peers) && Descends(old(store.State()), store.State())
    ensures res.Ok? ==>
              && dispatched && Committed(store.State(), transaction, base, proposed, res.value)
              && res.value.value.record.provenance == Some(author.(operation := Token(transaction)))
    ensures wrote ==> dispatched && (res.Err? ==> !SafeToAbort(res.error.code))
    ensures !authorized ==> !wrote
    ensures dispatched ==>
              |approved| == |peers| && forall q :: q in approved ==> Obeys(q, transaction, Prepare(proposed))
    ensures res.Ok? ==>
              && |confirmed| == |peers|
              && forall q :: q in confirmed ==> Obeys(q, transaction, Finish(DigestOf(res.value)))
    ensures calm && authorized && AllFrozen(old(store.State()), models, transaction, now)
              && AllApprovable(models, proposed) && base == HeadDigest(old(store.State()))
              && CommitRefusal(old(store.State()), Request(proposed, base, false, None)).None? ==>
              res.Ok?
  {
    hide Descends, Committed, Cohort, Obeys, AllFrozen, AllApprovable, AllApproving, AllWilling, AskedUpTo,
      CommitRefusal,
      Stand;
    CohortValid(store, peers, now);
    if AllFrozen(store.State(), models, transaction, now) && AllApprovable(models, proposed) {
      AllPrepare(store.State(), models, transaction, proposed, now);
    }
    var failure;
    confirmed := [];
    ghost var later;
    failure, approved, later := PrepareAll(store, peers, transaction, proposed, calm, now);
    if failure.Some? {
      return Err(failure.value), false, approved, confirmed, false;
    }
    ghost var prepared := store.State();
    dispatched := true;
    res, confirmed, wrote := CommitAndFinish(store, peers, transaction, authorized, author, base, proposed, calm,
                                             models, later);
    DescendsTransitive(old(store.State()), prepared, store.State());
  }

  lemma CommittedIsSaved(s: Store, t: Store, transaction: nat, before: Report, accepted: Option<Snapshot>,
                         proposed: Projection, res: Result<Option<Snapshot>, Error>)
    requires Descends(s, t) && AcceptedInv(s, accepted)
    requires before.base == DigestOf(accepted) && before.settings == BaseSettings(accepted)
    requires forall k :: 0 <= k < |before.frozen| ==> before.frozen[k].Captured? && before.frozen[k].base == before.base
    requires IsMerge(before.settings, before.frozen, proposed)
    requires res.Ok? ==>
               && Committed(t, transaction, before.base, proposed, res.value)
               && res.value.value.record.provenance == Some(before.author.(operation := Token(transaction)))
    ensures res.Ok? ==> Saved(t, transaction, before, res.value)
  {
  }

  /** Every participant validates the proposal, and the coordinator may still stop. */
  method PrepareAll(store: ConfigurationStore, peers: seq<ConfigurationParticipant>, transaction: nat,
                    proposed: Projection, calm: bool, ghost models: seq<Peer>)
    returns (failure: Option<Error>, ghost approved: seq<Peer>, ghost now: seq<Peer>)
    requires Cohort(store, peers) && Stand(peers, models)
    modifies store, peers, set p: ConfigurationParticipant | p in peers :: p.runtime
    ensures Cohort(store, peers) && Stand(peers, now) && Descends(old(store.State()), store.State())
    ensures failure.None? ==>
              |approved| == |peers| && forall q :: q in approved ==> Obeys(q, transaction, Prepare(proposed))
    ensures calm && AllWilling(old(store.State()), models, transaction, Prepare(proposed)) ==>
              && failure.None? && store.State() == old(store.State())
              && AskedUpTo(store.State(), models, transaction, Prepare(proposed), now, |models|)
  {
    hide Descends, Cohort, Obeys, AllWilling, AskedUpTo, Stand;
    failure, approved, now := AskAll(store, peers, transaction, Prepare(proposed), calm, models);
    if failure.None? {
      var fault := Chance(calm);
      failure := if fault.Some? then Some(Error(fault.value, None)) else None;
    }
  }

  method FinishAll(store: ConfigurationStore, peers: seq<ConfigurationParticipant>, transaction: nat,
                   snapshot: Option<Snapshot>, calm: bool, ghost models: seq<Peer>)
    returns (res: Result<Option<Snapshot>, Error>, ghost confirmed: seq<Peer>)
    requires Cohort(store, peers) && Stand(peers, models)
    modifies store, peers, set p: ConfigurationParticipant | p in peers :: p.runtime
    ensures Cohort(store, peers) && Descends(old(store.State()), store.State())
    ensures res == Ok(snapshot) || (res.Err? && res.error == Error(ReloadPending, DigestOf(snapshot)))
    ensures res.Ok? ==>
              && |confirmed| == |peers|
              && forall q :: q in confirmed ==> Obeys(q, transaction, Finish(DigestOf(snapshot)))
    ensures calm && AllWilling(old(store.State()), models, transaction, Finish(DigestOf(snapshot))) ==> res.Ok?
  {
    hide Descends, Cohort, Obeys, AllWilling, AskedUpTo, Stand;
    var failure;
    ghost var now;
    failure, confirmed, now := AskAll(store, peers, transaction, Finish(DigestOf(snapshot)), calm, models);
    res := if failure.Some? then Err(Error(ReloadPending, DigestOf(snapshot))) else Ok(snapshot);
  }

  /** The one dispatch, then the reloads. A failure that is safe to abort wrote nothing. */
  method CommitAndFinish(store: ConfigurationStore, peers: seq<ConfigurationParticipant>, transaction: nat,
                         authorized: bool, author: Provenance, base: Option<Digest>, proposed: Projection, calm: bool,
                         ghost models: seq<Peer>, ghost now: seq<Peer>)
    returns (res: Result<Option<Snapshot>, Error>, ghost confirmed: seq<Peer>, ghost wrote: bool)
    requires Cohort(store, peers) && |peers| > 0 && Stand(peers, now)
    modifies store, peers, set p: ConfigurationParticipant | p in peers :: p.runtime
    ensures Cohort(store, peers) && Descends(old(store.State()), store.State())
    ensures wrote && res.Err? ==> res.error.code == Uncertain || res.error.code == ReloadPending
    ensures !authorized ==> !wrote
    ensures res.Ok? ==>
              && Committed(store.State(), transaction, base, proposed, res.value)
              && res.value.value.record.provenance == Some(author.(operation := Token(transaction)))
    ensures res.Ok? ==>
              && |confirmed| == |peers|
              && forall q :: q in confirmed ==> Obeys(q, transaction, Finish(DigestOf(res.value)))
    ensures calm && authorized && AllApproving(old(store.State()), models, transaction, proposed, now)
              && base == HeadDigest(old(store.State()))
              && CommitRefusal(old(store.State()), Request(proposed, base, false, None)).None? ==>
              res.Ok?
  {
    hide Descends, Committed, Cohort, Obeys, AllApproving, AllWilling, AllValid, Stand, Records, Holds, PeerInv;
    confirmed := [];
    var provenance := author.(operation := Token(transaction));
    Interleave(store, peers, calm, now);
    ghost var s := store.State();
    ghost var later := Standing(store, peers, now);
    CohortValid(store, peers, later);
    AuthorIgnored(s, proposed, base, Some(provenance));
    var committed := CommitFor(store, peers, Request(proposed, base, false, Some(provenance)), authorized, calm);
    ghost var t := store.State();
    wrote := t != s;
    DescendsTransitive(old(store.State()), s, t);
    if committed.Err? {
      return Err(committed.error), confirmed, wrote;
    }
    if AllApproving(s, models, transaction, proposed, later) && base == HeadDigest(s) {
      CohortValid(store, peers, later);
      CommitHolds(s, t, transaction, Request(proposed, base, false, Some(provenance)), committed.value);
      AllFinish(s, t, models, transaction, proposed, later);
    }
    res, confirmed := FinishAll(store, peers, transaction, Some(committed.value), calm, later);
    DescendsTransitive(old(store.State()), t, store.State());
    CommittedStays(t, store.State(), transaction, base, proposed, Some(committed.value));
  }

  lemma AuthorIgnored(s: Store, settings: Projection, base: Option<Digest>, author: Option<Provenance>)
    ensures CommitRefusal(s, Request(settings, base, false, author))
         == CommitRefusal(s, Request(settings, base, false, None))
  {
    hide WellSet;
  }

  lemma CommitHolds(s: Store, t: Store, transaction: nat, request: Request, snapshot: Snapshot)
    requires Inv(s) && Inv(t) && HeadSnapshot(t) == Some(snapshot) && Records(s, request, snapshot.record)
    requires request.expected == HeadDigest(s) && !request.inheritExtensions
    requires request.provenance.Some? && request.provenance.value.operation == Token(transaction)
    ensures Holds(s, t, transaction, request.settings) && HeadDigest(t) == Some(snapshot.digest)
  {
  }

  method CommitFor(store: ConfigurationStore, peers: seq<ConfigurationParticipant>, request: Request, authorized: bool,
                   calm: bool)
    returns (res: Result<Snapshot, Error>)
    requires Cohort(store, peers)
    modifies store
    ensures Cohort(store, peers) && Descends(old(store.State()), store.State())
    ensures res.Err? && res.error.code != Uncertain ==> store.State() == old(store.State())
    ensures !authorized ==> store.State() == old(store.State())
    ensures res.Ok? ==>
              HeadSnapshot(store.State()) == Some(res.value) && Records(old(store.State()), request, res.value.record)
    ensures calm && authorized && CommitRefusal(old(store.State()), request).None? ==> res.Ok?
    ensures res.Ok? && !request.inheritExtensions && request.provenance.Some?
              && request.provenance.value.operation.Token? ==>
              Committed(store.State(), request.provenance.value.operation.id, request.expected, request.settings,
                  Some(res.value))
              && res.value.record.provenance == request.provenance
  {
    hide Descends, CommitOutcome, PeerInv, Committed, Records, CommitRefusal, HeadSnapshot;
    ghost var s := store.State();
    res := store.Commit(request, authorized, calm);
    forall p | p in peers
      ensures p.runtime.Valid()
    {
      PeerInvStable(s, store.State(), p.runtime.Model());
    }
    if res.Ok? {
      CommitCommitted(s, store.State(), request, res.value);
    }
  }

  lemma CommitCommitted(s: Store, t: Store, request: Request, snapshot: Snapshot)
    requires Inv(s) && CommitOutcome(s, t, request, Ok(snapshot)) && Descends(s, t)
    ensures !request.inheritExtensions && request.provenance.Some? && request.provenance.value.operation.Token? ==>
              Committed(t, request.provenance.value.operation.id, request.expected, request.settings, Some(snapshot))
    ensures snapshot.record.provenance == request.provenance
  {
    var d :| CommitReached(s, t, request, Ok(snapshot), d);
    assert t.head.value.digest == snapshot.digest;
    SelfAncestor(t.objects, snapshot.digest);
  }

  lemma CommittedStays(t: Store, u: Store, transaction: nat, base: Option<Digest>, settings: Projection,
                       snapshot: Option<Snapshot>)
    requires Descends(t, u) && Committed(t, transaction, base, settings, snapshot)
    ensures Committed(u, transaction, base, settings, snapshot)
  {
    AncestorPreserved(t.objects, u.objects, snapshot.value.digest, t.head.value.digest);
    AncestorTransitive(u.objects, snapshot.value.digest, t.head.value.digest, u.head.value.digest);
  }
}
