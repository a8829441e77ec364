/**
  Signed configuration revisions: write-once objects, a HEAD and an intent.

  A revision is published by three separate durable writes made under one
  exclusive lease. A process may stop, or an acknowledgement may be lost, before
  or after any of them.
 */
module LiveConfiguration {
  import opened Wrappers

  /** A SHA-256 name. Only equality is ever used. */
  type Digest = nat
  type Name = string
  /** The canonical encoding of one owner's object. */
  type Value = string

  const MAX_OBJECTS := 1024

  /** One exported working set of editable files: where it lives and what its manifest says. */
  datatype WorkingSet = WorkingSet(directory: string, binding: Digest, base: Option<Digest>,
                                   baseRevision: nat, owners: set<Name>)

  /** The settings a revision carries, without its place in the history. */
  datatype Projection = Projection(values: map<Name, Value>, cadence: int, extensions: map<Name, Value>)

  /** The operation digest of a revision: an opaque token, or the domain-separated
      digest that binds a working set to the exact settings it flushed. */
  datatype Operation = Token(id: nat) | EditOf(edit: WorkingSet, settings: Projection)

  datatype Provenance = Provenance(actor: Digest, machine: Digest, operation: Operation)

  datatype Record = Record(revision: nat, parent: Option<Digest>, settings: Projection,
                           provenance: Option<Provenance>)

  datatype Snapshot = Snapshot(digest: Digest, record: Record)
  datatype Head = Head(revision: nat, digest: Digest)
  datatype Intent = Intent(candidate: Digest, parent: Option<Digest>)

  /** `sealed` remembers every digest that sealing has produced and what was sealed:
      digests are collision-free and a sealing never repeats one. */
  datatype Store = Store(sealed: map<Digest, Record>, objects: map<Digest, Record>,
                         head: Option<Head>, intent: Option<Intent>)

  datatype Code =
    | Unauthorized | Busy | Conflict | Pending | Limit | Invalid | SigningFailed
    | Changed | Rollback | Unavailable | VerificationFailed | Unsupported | Incomplete
    | Uncertain | ReloadPending | Expired
    | ParticipantInvalid | ParticipantRejected | ParticipantUnavailable
    | Other  // any exception that is not a ConfigurationError

  datatype Error = Error(code: Code, candidate: Option<Digest>)

  /** Codes that a check, a read, an encoding or a sealing can raise. */
  type FaultCode = c: Code | c != Uncertain && c != ReloadPending && c != Pending witness Busy

  /** One durable write: it happens, it fails without effect, or it happens and
      its acknowledgement is lost. */
  datatype Io = Done | Failed | Lost

  // ---------------------------------------------------------------- records

  predicate LegalName(name: Name) {
    && 1 <= |name| <= 64
    && 'a' <= name[0] <= 'z'
    && forall i :: 0 <= i < |name| ==> 'a' <= name[i] <= 'z' || '0' <= name[i] <= '9' || name[i] == '-'
  }

  predicate Acceptable(settings: Projection) {
    && 1 <= settings.cadence <= 3600
    && 1 <= |settings.values| <= 64
    && forall name :: name in settings.values ==> LegalName(name)
  }

  /** The parent link of one stored object goes down one revision to a stored object;
      only revision 1 has none. */
  ghost predicate LinkedAt(objects: map<Digest, Record>, d: Digest)
    requires d in objects
  {
    && objects[d].revision >= 1
    && (objects[d].parent.None? <==> objects[d].revision == 1)
    && (objects[d].parent.Some? ==>
          && objects[d].parent.value in objects
          && objects[objects[d].parent.value].revision == objects[d].revision - 1)
  }

  ghost predicate Linked(objects: map<Digest, Record>) {
    forall d {:trigger LinkedAt(objects, d)} :: d in objects ==> LinkedAt(objects, d)
  }

  function HeadDigest(s: Store): Option<Digest> {
    if s.head.None? then None else Some(s.head.value.digest)
  }

  function HeadRevision(s: Store): nat {
    if s.head.None? then 0 else s.head.value.revision
  }

  ghost predicate IntentFollowsHead(s: Store) {
    s.intent.Some? ==>
      var i := s.intent.value;
      && i.candidate in s.objects
      && i.parent == s.objects[i.candidate].parent
      && (HeadDigest(s) == Some(i.candidate) || HeadDigest(s) == i.parent)
  }

  ghost predicate AllAcceptable(objects: map<Digest, Record>) {
    forall d {:trigger Acceptable(objects[d].settings)} :: d in objects ==> Acceptable(objects[d].settings)
  }

  ghost predicate Inv(s: Store) {
    && Linked(s.objects)
    && |s.objects| <= MAX_OBJECTS
    && AllAcceptable(s.objects)
    && Extends(s.objects, s.sealed)
    && (s.head.Some? ==> s.head.value.digest in s.objects
                         && s.objects[s.head.value.digest].revision == s.head.value.revision)
    && IntentFollowsHead(s)
  }

  const EMPTY := Store(map[], map[], None, None)

  // -------------------------------------------------------------- ancestry

  /** The ancestor of `d` at revision `r`. */
  ghost function AncestorAt(objects: map<Digest, Record>, d: Digest, r: nat): (a: Digest)
    requires Linked(objects) && d in objects && 1 <= r <= objects[d].revision
    ensures a in objects && objects[a].revision == r
    decreases objects[d].revision
  {
    assert LinkedAt(objects, d);
    if objects[d].revision == r then d else AncestorAt(objects, objects[d].parent.value, r)
  }

  ghost predicate IsAncestor(objects: map<Digest, Record>, a: Digest, d: Digest)
    requires Linked(objects)
  {
    && a in objects && d in objects
    && LinkedAt(objects, a)
    && objects[a].revision <= objects[d].revision
    && AncestorAt(objects, d, objects[a].revision) == a
  }

  /** A walk along parent links, newest first. */
  ghost predicate ParentPath(objects: map<Digest, Record>, path: seq<Digest>) {
    && |path| > 0
    && (forall i :: 0 <= i < |path| ==> path[i] in objects)
    && (forall i :: 0 <= i < |path| - 1 ==> objects[path[i]].parent == Some(path[i + 1]))
  }

  /** Parent links lead from `d` to `a`. */
  ghost predicate LeadsTo(objects: map<Digest, Record>, d: Digest, a: Digest) {
    exists path :: ParentPath(objects, path) && path[0] == d && path[|path| - 1] == a
  }

  lemma {:induction false} AncestorIffPath(objects: map<Digest, Record>, a: Digest, d: Digest)
    requires Linked(objects)
    ensures IsAncestor(objects, a, d) <==> LeadsTo(objects, d, a)
  {
    if IsAncestor(objects, a, d) {
      var path := PathTo(objects, a, d);
    }
    forall path | ParentPath(objects, path) && path[0] == d && path[|path| - 1] == a
      ensures IsAncestor(objects, a, d)
    {
      PathGivesAncestor(objects, path);
    }
  }

  lemma {:induction false} PathTo(objects: map<Digest, Record>, a: Digest, d: Digest)
    returns (path: seq<Digest>)
    requires Linked(objects) && IsAncestor(objects, a, d)
    ensures ParentPath(objects, path) && path[0] == d && path[|path| - 1] == a
    decreases if d in objects then objects[d].revision else 0
  {
    assert LinkedAt(objects, d);
    if a == d {
      path := [d];
    } else {
      var rest := PathTo(objects, a, objects[d].parent.value);
      path := [d] + rest;
    }
  }

  lemma {:induction false} PathGivesAncestor(objects: map<Digest, Record>, path: seq<Digest>)
    requires Linked(objects) && ParentPath(objects, path)
    ensures IsAncestor(objects, path[|path| - 1], path[0])
    decreases |path|
  {
    assert LinkedAt(objects, path[0]);
    if |path| > 1 {
      assert ParentPath(objects, path[1..]);
      PathGivesAncestor(objects, path[1..]);
      assert objects[path[0]].parent == Some(path[1]);
    }
  }

  lemma {:induction false} AncestorTransitive(objects: map<Digest, Record>, a: Digest, b: Digest, c: Digest)
    requires Linked(objects) && IsAncestor(objects, a, b) && IsAncestor(objects, b, c)
    ensures IsAncestor(objects, a, c)
    decreases if c in objects then objects[c].revision else 0
  {
    assert LinkedAt(objects, c) && LinkedAt(objects, a) && LinkedAt(objects, b);
    if b != c {
      AncestorTransitive(objects, a, b, objects[c].parent.value);
    }
  }

  ghost predicate Extends(small: map<Digest, Record>, large: map<Digest, Record>) {
    forall d :: d in small ==> d in large && large[d] == small[d]
  }

  lemma {:induction false} AncestorPreserved(small: map<Digest, Record>, large: map<Digest, Record>,
                                             a: Digest, d: Digest)
    requires Linked(small) && Linked(large) && Extends(small, large)
    requires IsAncestor(small, a, d)
    ensures IsAncestor(large, a, d)
    decreases if d in small then small[d].revision else 0
  {
    assert LinkedAt(small, d) && LinkedAt(large, d) && LinkedAt(small, a) && LinkedAt(large, a);
    if a != d {
      AncestorPreserved(small, large, a, small[d].parent.value);
    }
  }

  /** The revisions at and below `d`. */
  ghost function Lineage(objects: map<Digest, Record>, d: Digest): (line: set<Digest>)
    requires Linked(objects) && d in objects
    ensures line <= objects.Keys && |line| == objects[d].revision
    ensures forall e :: e in line ==> objects[e].revision <= objects[d].revision
    decreases objects[d].revision
  {
    assert LinkedAt(objects, d);
    if objects[d].parent.None? then {d} else {d} + Lineage(objects, objects[d].parent.value)
  }

  /** A chain of strictly decreasing revisions is no longer than the object set. */
  lemma RevisionBounded(objects: map<Digest, Record>, d: Digest)
    requires Linked(objects) && d in objects
    ensures objects[d].revision <= |objects|
  {
    SubsetSize(Lineage(objects, d), objects.Keys);
  }

  // ------------------------------------------------------------------ load

  function HeadSnapshot(s: Store): Option<Snapshot>
    requires s.head.Some? ==> s.head.value.digest in s.objects
  {
    if s.head.None? then None
    else Some(Snapshot(s.head.value.digest, s.objects[s.head.value.digest]))
  }

  /** What a read that meets no fault reports. */
  ghost function LoadResult(s: Store, minimum: nat, ancestor: Option<Digest>): Result<Option<Snapshot>, Code>
    requires Inv(s)
  {
    if ancestor.Some? && minimum < 1 then Err(Invalid)
    else if s.head.None? then if minimum > 0 then Err(Rollback) else Ok(None)
    else if s.head.value.revision < minimum then Err(Rollback)
    else if ancestor.Some? && AncestorAt(s.objects, s.head.value.digest, minimum) != ancestor.value then Err(Conflict)
    else Ok(HeadSnapshot(s))
  }

  /** `loaded` is a possible answer of a read: the exact one, or any fault. */
  ghost predicate Reads(s: Store, minimum: nat, ancestor: Option<Digest>, loaded: Result<Option<Snapshot>, Code>)
    requires Inv(s)
  {
    || loaded == LoadResult(s, minimum, ancestor)
    || (loaded.Err? && loaded.error != Uncertain && loaded.error != ReloadPending && loaded.error != Pending)
  }

  /** A read with a floor accepts exactly when parent links lead from HEAD to the
      given digest at the given revision. */
  lemma LoadAcceptsExactlyAncestors(s: Store, minimum: nat, a: Digest)
    requires Inv(s) && minimum >= 1
    ensures LoadResult(s, minimum, Some(a)).Ok? <==>
            && s.head.Some? && a in s.objects && s.objects[a].revision == minimum
            && LeadsTo(s.objects, s.head.value.digest, a)
  {
    if s.head.Some? {
      AncestorIffPath(s.objects, a, s.head.value.digest);
    }
  }

  // -------------------------------------------------------- durable writes

  datatype Request = Request(settings: Projection, expected: Option<Digest>,
                             inheritExtensions: bool, provenance: Option<Provenance>)

  /** The record a commit signs over the current HEAD. */
  function NextRecord(s: Store, request: Request): Record
    requires s.head.Some? ==> s.head.value.digest in s.objects
  {
    var extensions :=
      if !request.inheritExtensions then request.settings.extensions
      else if s.head.None? then map[]
      else s.objects[s.head.value.digest].settings.extensions;
    Record(HeadRevision(s) + 1, request.expected,
           request.settings.(extensions := extensions), request.provenance)
  }

  /** The guards a commit passes before its first write. */
  ghost predicate Committable(s: Store, request: Request) {
    && HeadDigest(s) == request.expected
    && (s.intent.Some? ==> Some(s.intent.value.candidate) == request.expected)
    && |s.objects| < MAX_OBJECTS
    && (s.head.Some? ==> s.head.value.digest in s.objects)
    && Acceptable(NextRecord(s, request).settings)
  }

  /** A name the format admits: up to 64 lower-case letters, digits and hyphens, a letter first. */
  ghost predicate WellNamed(name: Name) {
    && name != "" && |name| <= 64 && 'a' <= name[0] <= 'z'
    && forall c :: c in name ==> c == '-' || '0' <= c <= '9' || 'a' <= c <= 'z'
  }

  lemma NamesMean(name: Name)
    ensures LegalName(name) <==> WellNamed(name)
  {
    if WellNamed(name) {
      assert forall i :: 0 <= i < |name| ==> name[i] in name;
    }
  }

  /** Settings the format admits. */
  ghost predicate WellSet(settings: Projection) {
    && 1 <= settings.cadence <= 3600 && settings.values != map[] && |settings.values| <= 64
    && forall name :: name in settings.values ==> WellNamed(name)
  }

  lemma SettingsMean(settings: Projection)
    ensures Acceptable(settings) <==> WellSet(settings)
  {
    forall name
      ensures LegalName(name) <==> WellNamed(name)
    {
      NamesMean(name);
    }
  }

  /** The record is the one asked for: the next revision over the expected parent, with the request's values, cadence
      and provenance, and its own extensions or those of the revision before. */
  ghost predicate Records(s: Store, request: Request, r: Record) {
    && r.parent == request.expected && r.provenance == request.provenance
    && r.revision == (if s.head.Some? then s.head.value.revision + 1 else 1)
    && r.settings.values == request.settings.values && r.settings.cadence == request.settings.cadence
    && (!request.inheritExtensions ==> r.settings.extensions == request.settings.extensions)
    && (request.inheritExtensions && s.head.None? ==> r.settings.extensions == map[])
    && (request.inheritExtensions && s.head.Some? && s.head.value.digest in s.objects ==>
          r.settings.extensions == s.objects[s.head.value.digest].settings.extensions)
  }

  /** Why a commit that meets no fault is refused, in the order the store asks; `None` where it goes through. */
  ghost function CommitRefusal(s: Store, request: Request): Option<Error> {
    if request.expected != (if s.head.Some? then Some(s.head.value.digest) else None) then Some(Error(Conflict, None))
    else if s.intent.Some? && request.expected != Some(s.intent.value.candidate) then
      Some(Error(Pending, Some(s.intent.value.candidate)))
    else if |s.objects| >= 1024 then Some(Error(Limit, None))
    else if !WellSet(request.settings) then Some(Error(Invalid, None))
    else None
  }

  /** Why a recovery that meets no fault is refused: nothing to finish, nothing retained under the name, or another
      candidate or HEAD in the way. */
  ghost function RecoverRefusal(s: Store, candidate: Option<Digest>): Option<Error> {
    match candidate
    case None => if s.intent.None? then Some(Error(Pending, None)) else None
    case Some(d) =>
      var current := if s.head.Some? then Some(s.head.value.digest) else None;
      if d !in s.objects then Some(Error(Unavailable, None))
      else if s.intent.Some? && s.intent.value.candidate != d && Some(s.intent.value.candidate) != current then
        Some(Error(Conflict, None))
      else if current != Some(d) && current != s.objects[d].parent then Some(Error(Conflict, None))
      else None
  }

  lemma RefusalsMean(s: Store, request: Request, candidate: Option<Digest>)
    requires Inv(s)
    ensures CommitRefusal(s, request).None? <==> Committable(s, request)
    ensures Records(s, request, NextRecord(s, request))
    ensures RecoverRefusal(s, candidate).None? <==> Recoverable(s, candidate)
  {
    SettingsMean(request.settings);
    SettingsMean(NextRecord(s, request).settings);
  }

  function WithSealed(s: Store, d: Digest, r: Record): Store {
    s.(sealed := s.sealed[d := r])
  }

  function WithObject(s: Store, d: Digest, r: Record): Store {
    s.(objects := s.objects[d := r])
  }

  function WithIntent(s: Store, d: Digest, r: Record): Store {
    s.(intent := Some(Intent(d, r.parent)))
  }

  function WithHead(s: Store, d: Digest, r: Record): Store {
    s.(head := Some(Head(r.revision, d)))
  }

  /** One durable step of some cooperating writer. */
  ghost predicate Step(s: Store, t: Store) {
    || t == s
    || (exists d, r :: Seals(s, t, d, r))
    || (exists d :: WritesObject(s, t, d))
    || (exists d :: WritesIntent(s, t, d))
    || (exists d :: WritesHead(s, t, d))
  }

  ghost predicate Seals(s: Store, t: Store, d: Digest, r: Record) {
    d !in s.sealed && t == WithSealed(s, d, r)
  }

  ghost predicate WritesObject(s: Store, t: Store, d: Digest) {
    && d in s.sealed && d !in s.objects && |s.objects| < MAX_OBJECTS
    && var r := s.sealed[d];
       && Acceptable(r.settings)
       && r.parent == HeadDigest(s) && r.revision == HeadRevision(s) + 1
       && t == WithObject(s, d, r)
  }

  ghost predicate WritesIntent(s: Store, t: Store, d: Digest) {
    && d in s.objects
    && (HeadDigest(s) == Some(d) || HeadDigest(s) == s.objects[d].parent)
    && (s.intent.Some? ==> Some(s.intent.value.candidate) == HeadDigest(s) || s.intent.value.candidate == d)
    && t == WithIntent(s, d, s.objects[d])
  }

  /** HEAD moves only to a stored child of the old HEAD that the intent names. */
  ghost predicate WritesHead(s: Store, t: Store, d: Digest) {
    && d in s.objects
    && s.objects[d].parent == HeadDigest(s)
    && s.objects[d].revision == HeadRevision(s) + 1
    && s.intent == Some(Intent(d, s.objects[d].parent))
    && t == WithHead(s, d, s.objects[d])
  }

  /** Every durable step keeps the invariant, keeps every stored object, and moves
      HEAD, if at all, to a child of the old HEAD. */
  lemma StepKeepsInv(s: Store, t: Store)
    requires Inv(s) && Step(s, t)
    ensures Inv(t) && Extends(s.objects, t.objects) && Extends(s.sealed, t.sealed)
    ensures HeadDigest(t) == HeadDigest(s)
         || (t.head.Some? && t.objects[t.head.value.digest].parent == HeadDigest(s))
  {
    if d: Digest, r: Record :| Seals(s, t, d, r) {
    } else if d: Digest :| WritesObject(s, t, d) {
      ObjectKeepsInv(s, t, d);
    } else if d: Digest :| WritesIntent(s, t, d) {
    } else if d: Digest :| WritesHead(s, t, d) {
      assert HeadDigest(t) == Some(d);
    }
  }

  lemma ObjectKeepsInv(s: Store, t: Store, d: Digest)
    requires Inv(s) && WritesObject(s, t, d)
    ensures Inv(t) && Extends(s.objects, t.objects)
  {
    assert t.objects.Keys == s.objects.Keys + {d};
    forall e | e in t.objects
      ensures LinkedAt(t.objects, e)
    {
      if e != d {
        assert LinkedAt(s.objects, e);
      } else if s.head.Some? {
        assert LinkedAt(s.objects, s.head.value.digest);
      }
    }
    assert Linked(t.objects);
    assert |t.objects| == |t.objects.Keys| <= MAX_OBJECTS;
    assert AllAcceptable(t.objects);
    assert Extends(t.objects, t.sealed);
    assert IntentFollowsHead(t);
  }

  /** A run: any number of durable steps by any number of writers. A crash is the
      end of one writer's steps, so every prefix is a run too. */
  ghost predicate Run(states: seq<Store>) {
    && |states| > 0
    && Inv(states[0])
    && forall i, j {:trigger states[i], states[j]} :: 0 <= i && j == i + 1 && j < |states| ==>
        Step(states[i], states[j])
  }

  ghost predicate Descends(s: Store, t: Store) {
    && Inv(s) && Inv(t)
    && Extends(s.objects, t.objects) && Extends(s.sealed, t.sealed)
    && (s.head.Some? ==> t.head.Some? && IsAncestor(t.objects, s.head.value.digest, t.head.value.digest))
  }

  lemma SelfAncestor(objects: map<Digest, Record>, d: Digest)
    requires Linked(objects) && d in objects
    ensures IsAncestor(objects, d, d)
  {
    assert LinkedAt(objects, d);
  }

  lemma SameDescends(s: Store)
    requires Inv(s)
    ensures Descends(s, s)
  {
    if s.head.Some? {
      SelfAncestor(s.objects, s.head.value.digest);
    }
  }

  lemma StepDescends(s: Store, t: Store)
    requires Inv(s) && Step(s, t)
    ensures Descends(s, t)
  {
    StepKeepsInv(s, t);
    if s.head.Some? {
      assert LinkedAt(t.objects, s.head.value.digest) && LinkedAt(t.objects, t.head.value.digest);
      assert AncestorAt(t.objects, s.head.value.digest, s.head.value.revision) == s.head.value.digest;
    }
  }

  lemma DescendsTransitive(s: Store, t: Store, u: Store)
    requires Descends(s, t) && Descends(t, u)
    ensures Descends(s, u)
  {
    if s.head.Some? {
      AncestorPreserved(t.objects, u.objects, s.head.value.digest, t.head.value.digest);
      AncestorTransitive(u.objects, s.head.value.digest, t.head.value.digest, u.head.value.digest);
    }
  }

  /** In every reachable state the invariant holds, and whatever HEAD named at an
      earlier state is still stored and is an ancestor of HEAD at any later state: no
      committed revision is lost or forked. */
  lemma {:induction false} NoCommittedRevisionLost(states: seq<Store>, i: nat, j: nat)
    requires Run(states) && i <= j < |states|
    ensures Descends(states[i], states[j])
    decreases j
  {
    if j == 0 {
    } else if i == j {
      NoCommittedRevisionLost(states, 0, j - 1);
      StepKeepsInv(states[j - 1], states[j]);
    } else {
      NoCommittedRevisionLost(states, i, j - 1);
      StepDescends(states[j - 1], states[j]);
      DescendsTransitive(states[i], states[j - 1], states[j]);
    }
  }

  lemma {:induction false} FreshDigest(m: map<Digest, Record>)
    ensures exists d: Digest :: d !in m
  {
    var bound := Above(m.Keys);
    assert bound !in m;
  }

  ghost function Above(keys: set<Digest>): (bound: Digest)
    ensures forall k :: k in keys ==> k < bound
  {
    if keys == {} then 0 else
      var k :| k in keys;
      var rest := Above(keys - {k});
      assert forall x :: x in keys ==> x == k || x in keys - {k};
      if k < rest then rest else k + 1
  }

  // ------------------------------------------------------- outcome of calls

  /** Everything a commit can leave behind: nothing and a code other than `Uncertain`,
      or one of the four stages of its own writes. Success means the last stage. */
  ghost predicate CommitOutcome(s: Store, t: Store, request: Request, res: Result<Snapshot, Error>)
    requires Inv(s)
  {
    || (t == s && res.Err? && res.error.code != Uncertain && res.error.code != ReloadPending
        && (res.error.code == Pending ==> s.intent.Some? && Some(s.intent.value.candidate) != request.expected))
    || exists d :: CommitReached(s, t, request, res, d)
  }

  ghost predicate CommitReached(s: Store, t: Store, request: Request, res: Result<Snapshot, Error>, d: Digest)
    requires Inv(s)
  {
    && Committable(s, request)
    && d !in s.sealed
    && var r := NextRecord(s, request);
       var sealed := WithSealed(s, d, r);
       var stored := WithObject(sealed, d, r);
       var intended := WithIntent(stored, d, r);
       var published := WithHead(intended, d, r);
       && (t == sealed || t == stored || t == intended || t == published)
       && (res == Err(Error(Uncertain, Some(d))) || (res == Ok(Snapshot(d, r)) && t == published))
  }

  /** Recovery never signs: it moves the intent to a retained object and HEAD to it. */
  ghost predicate RecoverOutcome(s: Store, t: Store, candidate: Option<Digest>, res: Result<Snapshot, Error>)
    requires Inv(s)
  {
    || (t == s && res.Err? && res.error.code != Uncertain)
    || exists d :: RecoverReached(s, t, candidate, res, d)
  }

  /** What recovery may finish: the retained intent, or a retained object that is HEAD
      or a child of HEAD while no other candidate is pending. */
  ghost predicate Recoverable(s: Store, candidate: Option<Digest>)
  {
    if candidate.None? then s.intent.Some?
    else
      && candidate.value in s.objects
      && (HeadDigest(s) == candidate || HeadDigest(s) == s.objects[candidate.value].parent)
      && (s.intent.Some? ==> Some(s.intent.value.candidate) == HeadDigest(s)
                             || Some(s.intent.value.candidate) == candidate)
  }

  ghost predicate RecoverReached(s: Store, t: Store, candidate: Option<Digest>, res: Result<Snapshot, Error>, d: Digest)
    requires Inv(s)
  {
    && Recoverable(s, candidate)
    && d == (if candidate.Some? then candidate.value else s.intent.value.candidate)
    && var r := s.objects[d];
       var intended := WithIntent(s, d, r);
       && (t == intended || t == WithHead(intended, d, r))
       && (res.Ok? ==> res.value == Snapshot(d, r) && HeadDigest(t) == Some(d))
       && (res.Err? && res.error.code == Uncertain ==> res.error.candidate == Some(d))
  }

  /** What a commit reports as its candidate is what it sealed over the old HEAD. */
  lemma CommitSealed(s: Store, t: Store, request: Request, res: Result<Snapshot, Error>)
    requires Inv(s) && CommitOutcome(s, t, request, res)
    ensures res.Ok? ==> res.value.digest in t.sealed && t.sealed[res.value.digest] == res.value.record
                        == NextRecord(s, request)
    ensures res.Err? && res.error.code == Uncertain ==>
              && res.error.candidate.Some? && res.error.candidate.value in t.sealed
              && t.sealed[res.error.candidate.value] == NextRecord(s, request)
  {
    if res.Ok? || res.error.code == Uncertain {
      var d :| CommitReached(s, t, request, res, d);
    }
  }

  /** A commit that left anything sealed one fresh record over the old HEAD. */
  lemma CommitSealsOne(s: Store, t: Store, request: Request, res: Result<Snapshot, Error>) returns (d: Digest)
    requires Inv(s) && CommitOutcome(s, t, request, res) && t != s
    ensures d !in s.sealed && d in t.sealed && t.sealed == s.sealed[d := NextRecord(s, request)]
    ensures Records(s, request, t.sealed[d])
    ensures request.expected == HeadDigest(s)
  {
    d :| CommitReached(s, t, request, res, d);
    RefusalsMean(s, request, None);
  }

  /** A commit that succeeds answers with the record asked for, and HEAD is that. */
  lemma CommitAnswers(s: Store, t: Store, request: Request, res: Result<Snapshot, Error>)
    requires Inv(s) && CommitOutcome(s, t, request, res) && res.Ok?
    ensures Records(s, request, res.value.record)
    ensures t.head.Some? && t.head.value.digest in t.objects && HeadSnapshot(t) == Some(res.value)
  {
    var d :| CommitReached(s, t, request, res, d);
    RefusalsMean(s, request, None);
  }

  /** What a reader can find stored is within the format's bounds. */
  lemma StoredIsBounded(s: Store, d: Digest)
    requires Inv(s) && d in s.objects
    ensures WellSet(s.objects[d].settings) && |s.objects| <= 1024
  {
    SettingsMean(s.objects[d].settings);
  }

  /** The stages a commit passes through, as durable steps. */
  lemma CommitIsRun(s: Store, t: Store, request: Request, res: Result<Snapshot, Error>)
    returns (states: seq<Store>)
    requires Inv(s) && CommitOutcome(s, t, request, res)
    ensures Run(states) && states[0] == s && states[|states| - 1] == t
  {
    if t == s {
      states := [s];
    } else {
      var d :| CommitReached(s, t, request, res, d);
      var r := NextRecord(s, request);
      var sealed := WithSealed(s, d, r);
      var stored := WithObject(sealed, d, r);
      var intended := WithIntent(stored, d, r);
      var published := WithHead(intended, d, r);
      assert Seals(s, sealed, d, r);
      assert WritesObject(sealed, stored, d);
      assert WritesIntent(stored, intended, d);
      assert WritesHead(intended, published, d);
      states := if t == sealed then [s, sealed] else if t == stored then [s, sealed, stored]
                else if t == intended then [s, sealed, stored, intended]
                else [s, sealed, stored, intended, published];
    }
  }

  lemma RecoverIsRun(s: Store, t: Store, candidate: Option<Digest>, res: Result<Snapshot, Error>)
    returns (states: seq<Store>)
    requires Inv(s) && RecoverOutcome(s, t, candidate, res)
    ensures Run(states) && states[0] == s && states[|states| - 1] == t
  {
    if t == s {
      states := [s];
    } else {
      var d :| RecoverReached(s, t, candidate, res, d);
      var r := s.objects[d];
      var intended := WithIntent(s, d, r);
      assert WritesIntent(s, intended, d);
      assert LinkedAt(s.objects, d);
      if s.head.Some? {
        assert LinkedAt(s.objects, s.head.value.digest);
      }
      if t == intended || HeadDigest(s) == Some(d) {
        states := [s, intended];
      } else {
        assert WritesHead(intended, t, d);
        states := [s, intended, t];
      }
    }
  }

  lemma CommitDescends(s: Store, t: Store, request: Request, res: Result<Snapshot, Error>)
    requires Inv(s) && CommitOutcome(s, t, request, res)
    ensures Descends(s, t)
  {
    var states := CommitIsRun(s, t, request, res);
    NoCommittedRevisionLost(states, 0, |states| - 1);
  }

  lemma RecoverDescends(s: Store, t: Store, candidate: Option<Digest>, res: Result<Snapshot, Error>)
    requires Inv(s) && RecoverOutcome(s, t, candidate, res)
    ensures Descends(s, t)
  {
    var states := RecoverIsRun(s, t, candidate, res);
    NoCommittedRevisionLost(states, 0, |states| - 1);
  }
}
