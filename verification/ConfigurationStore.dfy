/** The store object: each method makes its durable writes one at a time. */
module ConfigurationStores {
  import opened Wrappers
  import opened LiveConfiguration

  /** Where the environment lets a call go on, or the code it raises instead. A calm
      environment raises nothing and loses nothing. */
  method Chance(calm: bool) returns (fault: Option<FaultCode>)
    ensures calm ==> fault.None?
  {
    fault := *;
    if calm {
      fault := None;
    }
  }

  method Attempt(calm: bool) returns (io: Io)
    ensures calm ==> io == Done
  {
    io := *;
    if calm {
      io := Done;
    }
  }

  class ConfigurationStore {
    var sealed: map<Digest, Record>
    var objects: map<Digest, Record>
    var head: Option<Head>
    var intent: Option<Intent>
    /** Every durable state so far, oldest first: what a crash can leave. */
    ghost var history: seq<Store>

    ghost function State(): Store
      reads this
    {
      Store(sealed, objects, head, intent)
    }

    ghost predicate Valid()
      reads this
    {
      && Run(history)
      && history[|history| - 1] == State()
      && Inv(State())
    }

    constructor ()
      ensures Valid() && State() == EMPTY && history == [EMPTY]
    {
      sealed, objects, head, intent := map[], map[], None, None;
      history := [EMPTY];
    }

    /** Append one durable state to the history. */
    ghost method Advance(before: Store)
      requires Run(history) && history[|history| - 1] == before
      requires Inv(before) && Step(before, State())
      modifies this`history
      ensures Valid() && history == old(history) + [State()]
    {
      StepKeepsInv(before, State());
      history := history + [State()];
    }

    /** `unreadable` is the code a read raises when the environment stops it. */
    method Load(minimum: nat, ancestor: Option<Digest>, unreadable: Option<FaultCode>)
      returns (loaded: Result<Option<Snapshot>, Code>)
      requires Valid()
      ensures Reads(State(), minimum, ancestor, loaded)
      ensures unreadable.None? ==> loaded == LoadResult(State(), minimum, ancestor)
      ensures loaded.Ok? ==> (loaded.value.Some? <==> head.Some?)
      ensures loaded.Ok? && head.Some? ==>
                loaded.value == Some(Snapshot(head.value.digest, objects[head.value.digest]))
    {
      if ancestor.Some? && minimum < 1 {
        return Err(Invalid);
      }
      if unreadable.Some? {
        return Err(unreadable.value);
      }
      if head.None? {
        return if minimum > 0 then Err(Rollback) else Ok(None);
      }
      var candidate := Snapshot(head.value.digest, objects[head.value.digest]);
      if candidate.record.revision != head.value.revision || candidate.record.revision < minimum {
        return Err(Rollback);
      }
      if ancestor.Some? {
        var walk := candidate;
        var steps := 0;
        RevisionBounded(objects, candidate.digest);
        ghost var top := candidate.digest;
        while steps < 1024 && walk.record.revision != minimum
          invariant 0 <= steps <= 1024
          invariant walk.digest in objects && walk.record == objects[walk.digest]
          invariant minimum <= walk.record.revision == candidate.record.revision - steps
          invariant AncestorAt(objects, top, minimum) == AncestorAt(objects, walk.digest, minimum)
        {
          assert LinkedAt(objects, walk.digest);
          var parent := walk.record.parent.value;
          walk := Snapshot(parent, objects[parent]);
          steps := steps + 1;
        }
        if walk.digest != ancestor.value {
          return Err(Conflict);
        }
      }
      return Ok(Some(candidate));
    }

    method Publish(candidate: Snapshot, expected: Option<Digest>, calm: bool) returns (res: Result<Snapshot, Error>)
      requires Valid()
      requires candidate.digest in objects && objects[candidate.digest] == candidate.record
      requires intent == Some(Intent(candidate.digest, candidate.record.parent))
      requires expected == candidate.record.parent
      modifies this
      ensures Valid() && old(history) <= history
      ensures State() == old(State()) || State() == WithHead(old(State()), candidate.digest, candidate.record)
      ensures res.Ok? ==> res.value == candidate && HeadDigest(State()) == Some(candidate.digest)
      ensures res.Err? && res.error.code != Uncertain ==> State() == old(State()) && res.error.code != ReloadPending
      ensures res.Err? && res.error.code == Uncertain ==> res.error.candidate == Some(candidate.digest)
      ensures calm ==> (res.Ok? <==> HeadDigest(old(State())) == Some(candidate.digest)
                                     || HeadDigest(old(State())) == expected)
    {
      hide Run;
      var unreadable := Chance(calm);
      var loaded := Load(0, None, unreadable);
      if loaded.Err? {
        return Err(Error(loaded.error, None));
      }
      var current := loaded.value;
      if current.Some? && current.value.digest == candidate.digest {
        return Ok(current.value);
      }
      assert LinkedAt(objects, candidate.digest) && (current.Some? ==> LinkedAt(objects, current.value.digest));
      if (if current.None? then None else Some(current.value.digest)) != expected
         || candidate.record.revision != (if current.None? then 1 else current.value.record.revision + 1) {
        return Err(Error(Conflict, None));
      }
      var fault := Chance(calm);
      if fault.Some? {
        return Err(Error(fault.value, None));
      }
      var io := Attempt(calm);
      if io != Failed {
        ghost var before := State();
        head := Some(Head(candidate.record.revision, candidate.digest));
        assert WritesHead(before, State(), candidate.digest);
        Advance(before);
      }
      if io != Done {
        return Err(Error(Uncertain, Some(candidate.digest)));
      }
      unreadable := Chance(calm);
      loaded := Load(candidate.record.revision, None, unreadable);
      if loaded.Err? || loaded.value.None? || loaded.value.value.digest != candidate.digest {
        return Err(Error(Uncertain, Some(candidate.digest)));
      }
      return Ok(loaded.value.value);
    }

    /** Seal a payload: an opaque producer of a fresh digest. */
    method Seal(record: Record) returns (digest: Digest)
      requires Valid()
      modifies this
      ensures Valid() && old(history) <= history
      ensures digest !in old(sealed) && State() == WithSealed(old(State()), digest, record)
    {
      FreshDigest(sealed);
      digest :| digest !in sealed;
      ghost var before := State();
      sealed := sealed[digest := record];
      assert Seals(before, State(), digest, record);
      Advance(before);
    }

    /** Write one object, never replacing: `io` tells whether the caller saw it happen. */
    method PutObject(digest: Digest, record: Record, calm: bool) returns (io: Io)
      requires Valid()
      requires digest !in objects && WritesObject(State(), WithObject(State(), digest, record), digest)
      modifies this
      ensures Valid() && old(history) <= history
      ensures calm ==> io == Done
      ensures State() == if io == Failed then old(State()) else WithObject(old(State()), digest, record)
    {
      io := Attempt(calm);
      if io != Failed {
        ghost var before := State();
        objects := objects[digest := record];
        Advance(before);
      }
    }

    method PutIntent(digest: Digest, parent: Option<Digest>, calm: bool) returns (io: Io)
      requires Valid()
      requires digest in objects && parent == objects[digest].parent
      requires WritesIntent(State(), WithIntent(State(), digest, objects[digest]), digest)
      modifies this
      ensures Valid() && old(history) <= history
      ensures calm ==> io == Done
      ensures State() == if io == Failed then old(State()) else WithIntent(old(State()), digest, old(objects)[digest])
    {
      io := Attempt(calm);
      if io != Failed {
        ghost var before := State();
        intent := Some(Intent(digest, parent));
        Advance(before);
      }
    }

    method Commit(request: Request, authorized: bool, calm: bool) returns (res: Result<Snapshot, Error>)
      requires Valid()
      modifies this
      ensures Valid() && old(history) <= history
      ensures CommitOutcome(old(State()), State(), request, res)
      ensures calm && authorized ==>
                match CommitRefusal(old(State()), request)
                case Some(error) => res == Err(error)
                case None => res.Ok?
      ensures res.Ok? ==> Records(old(State()), request, res.value.record) && HeadSnapshot(State()) == Some(res.value)
      ensures Descends(old(State()), State())
      ensures res.Err? && res.error.code != Uncertain ==> State() == old(State())
      ensures !authorized ==> res == Err(Error(Unauthorized, None))
    {
      hide CommitReached, Records, WellSet, Acceptable, Descends, Run, AncestorAt;
      SameDescends(State());
      RefusalsMean(State(), request, None);
      if !authorized {
        return Err(Error(Unauthorized, None));
      }
      // The authority check, the private directories and the exclusive lease.
      var fault := Chance(calm);
      if fault.Some? {
        return Err(Error(fault.value, None));
      }
      var unreadable := Chance(calm);
      var loaded := Load(0, None, unreadable);
      if loaded.Err? {
        return Err(Error(loaded.error, None));
      }
      var current := loaded.value;
      if (if current.None? then None else Some(current.value.digest)) != request.expected {
        return Err(Error(Conflict, None));
      }
      if intent.Some? && Some(intent.value.candidate) != request.expected {
        return Err(Error(Pending, Some(intent.value.candidate)));
      }
      if |objects| >= MAX_OBJECTS {
        return Err(Error(Limit, None));
      }
      var record := NextRecord(Store(sealed, objects, head, intent), request);
      if !Acceptable(record.settings) {
        return Err(Error(Invalid, None));
      }
      // Encoding limits and the signing authority.
      fault := Chance(calm);
      if fault.Some? {
        return Err(Error(fault.value, None));
      }
      ghost var start := State();
      res := Persist(request, record, calm);
      CommitDescends(start, State(), request, res);
      if res.Ok? {
        CommitAnswers(start, State(), request, res);
      }
    }

    /** The three writes of a commit. Any failure among them is reported as uncertain. */
    method Persist(request: Request, record: Record, calm: bool) returns (res: Result<Snapshot, Error>)
      requires Valid()
      requires Committable(State(), request) && record == NextRecord(State(), request)
      modifies this
      ensures Valid() && old(history) <= history
      ensures CommitOutcome(old(State()), State(), request, res)
      ensures res.Err? ==> res.error.code == Uncertain
      ensures calm ==> res.Ok?
    {
      hide Run;
      ghost var start := State();
      var digest := Seal(record);
      res := Err(Error(Uncertain, Some(digest)));
      var io := PutObject(digest, record, calm);
      var fault := Chance(calm);
      if io != Done || fault.Some? {
        assert CommitReached(start, State(), request, res, digest);
        return;
      }
      io := PutIntent(digest, request.expected, calm);
      if io != Done {
        assert CommitReached(start, State(), request, res, digest);
        return;
      }
      res := Publish(Snapshot(digest, record), request.expected, calm);
      if res.Err? {
        res := Err(Error(Uncertain, Some(digest)));
      }
      assert CommitReached(start, State(), request, res, digest);
    }

    method Recover(candidate: Option<Digest>, authorized: bool, calm: bool) returns (res: Result<Snapshot, Error>)
      requires Valid()
      modifies this
      ensures Valid() && old(history) <= history
      ensures RecoverOutcome(old(State()), State(), candidate, res)
      ensures calm && authorized ==>
                match RecoverRefusal(old(State()), candidate)
                case Some(error) => res == Err(error)
                case None => res.Ok?
      ensures Descends(old(State()), State())
      ensures sealed == old(sealed) && objects == old(objects)
      ensures !authorized ==> State() == old(State())
    {
      res := RecoverCandidate(candidate, authorized, calm);
      RecoverDescends(old(State()), State(), candidate, res);
    }

    method RecoverCandidate(candidate: Option<Digest>, authorized: bool, calm: bool)
      returns (res: Result<Snapshot, Error>)
      requires Valid()
      modifies this
      ensures Valid() && old(history) <= history
      ensures RecoverOutcome(old(State()), State(), candidate, res)
      ensures calm && authorized ==>
                match RecoverRefusal(old(State()), candidate)
                case Some(error) => res == Err(error)
                case None => res.Ok?
      ensures sealed == old(sealed) && objects == old(objects)
      ensures !authorized ==> State() == old(State())
    {
      hide Run;
      if !authorized {
        return Err(Error(Unauthorized, None));
      }
      var fault := Chance(calm);
      if fault.Some? {
        return Err(Error(fault.value, None));
      }
      if candidate.None? {
        if intent.None? {
          return Err(Error(Pending, None));
        }
        res := Finish(intent.value.candidate, intent.value.parent, candidate, State(), calm);
        return;
      }
      if candidate.value !in objects {
        return Err(Error(Unavailable, None));
      }
      var parent := objects[candidate.value].parent;
      var unreadable := Chance(calm);
      var loaded := Load(0, None, unreadable);
      if loaded.Err? {
        return Err(Error(loaded.error, None));
      }
      var current := if loaded.value.None? then None else Some(loaded.value.value.digest);
      if intent.Some? && Some(intent.value.candidate) != current && intent.value.candidate != candidate.value {
        return Err(Error(Conflict, None));
      }
      if current != candidate && current != parent {
        return Err(Error(Conflict, None));
      }
      ghost var start := State();
      var io := PutIntent(candidate.value, parent, calm);
      if io != Done {
        res := Err(Error(Other, None));
        assert io == Lost ==> RecoverReached(start, State(), candidate, res, candidate.value);
        return;
      }
      res := Finish(candidate.value, parent, candidate, start, calm);
    }

    /** Publish the retained intent, without signing anything. */
    method Finish(digest: Digest, parent: Option<Digest>, ghost candidate: Option<Digest>, ghost start: Store,
                  calm: bool)
      returns (res: Result<Snapshot, Error>)
      requires Valid() && Inv(start)
      requires digest in objects && parent == objects[digest].parent
      requires intent == Some(Intent(digest, parent))
      requires State() == WithIntent(start, digest, objects[digest])
      requires RecoverReached(start, State(), candidate, Err(Error(Other, None)), digest)
      modifies this
      ensures Valid() && old(history) <= history
      ensures RecoverReached(start, State(), candidate, res, digest)
      ensures calm ==> res.Ok?
      ensures sealed == old(sealed) && objects == old(objects)
    {
      var fault := Chance(calm);
      if fault.Some? {
        return Err(Error(fault.value, None));
      }
      res := Publish(Snapshot(digest, objects[digest]), parent, calm);
    }
  }
}
