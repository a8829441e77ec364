/** The guarded crontab write of one target's heartbeat (ls/core/harness_schedule.py, `install_fragment`). */
module HeartbeatSchedule {
  import opened Wrappers
  import opened HeartbeatBlock
  import opened Text
  import Framing

  datatype Snapshot = Snapshot(present: bool, content: string)

  datatype Status = Applied | NotApplied | Pending

  /** The ownership record file. */
  datatype Record = Record(status: Status, previous: Digest, desired: Digest,
                           previousBlock: Option<Digest>, block: Option<Digest>)

  /** How far the running call has come; only `Recorded` may write. */
  datatype Phase =
    | Idle
    | Seen(before: Snapshot)
    | Recorded(before: Snapshot, fragment: string, desired: string)
    | Sent

  /**
   * The crontab, the record, and what a run has done: the blocks this owner
   * generated, whether a dispatched write has not been observed yet, and
   * whether anybody else has changed the block.
   */
  datatype State = State(crontab: Snapshot, record: Option<Record>, phase: Phase,
                         generated: set<string>, unresolved: bool, touched: bool)

  datatype Act =
    | Others(crontab: Snapshot)
    | Read
    | Resolve(status: Status)
    | Propose(fragment: string)
    | Write(landed: bool)
    | Stop

  /** The digest of the block a text holds, `None` outside when its markers are ambiguous. */
  function Held(content: string, identity: string): Option<Option<Digest>> {
    match ScanFor(content, identity)
    case Absent => Some(None)
    case Found(_, block, _) => Some(Some(Sha(block)))
    case Ambiguous => None
  }

  /** The block digest the record answers for. */
  function Expected(record: Option<Record>): Option<Digest> {
    match record
    case None => None
    case Some(r) => if r.status == Applied then r.block else r.previousBlock
  }

  /** A replaced block must be the one the record answers for. */
  predicate Owns(record: Option<Record>, replaced: Option<Digest>) {
    replaced.Some? ==> replaced == Expected(record)
  }

  // ----- one step -----

  predicate Unsettled(record: Option<Record>) { record.Some? && record.value.status == Pending }

  function Observed(record: Record, status: Status): Digest {
    if status == Applied then record.desired else record.previous
  }

  predicate Enabled(identity: string, s: State, act: Act) {
    match act
    case Others(_) => true
    case Read => !s.phase.Recorded?
    case Resolve(status) =>
      s.phase.Seen? && Unsettled(s.record) && status != Pending
      && Sha(s.phase.before.content) == Observed(s.record.value, status)
    case Propose(fragment) =>
      s.phase.Seen? && !Unsettled(s.record) && Plain(fragment)
      && var merged := Merge(s.phase.before.content, fragment, identity);
         merged.Some? && Owns(s.record, merged.value.1) && merged.value.0 != s.phase.before.content
    case Write(_) => s.phase.Recorded?
    case Stop => true
  }

  function Next(identity: string, s: State, act: Act): State
    requires Enabled(identity, s, act)
  {
    match act
    case Others(c) =>
      s.(crontab := c, touched := s.touched || Held(c.content, identity) != Held(s.crontab.content, identity))
    case Read => s.(phase := Seen(s.crontab))
    case Resolve(status) => s.(record := Some(s.record.value.(status := status)), unresolved := false)
    case Propose(fragment) =>
      var before := s.phase.before;
      var (desired, replaced) := Merge(before.content, fragment, identity).value;
      s.(record := Some(Proposal(before.content, desired, replaced, identity)),
         generated := s.generated + (if fragment == "" then {} else {Block(fragment, identity)}),
         phase := Recorded(before, fragment, desired))
    case Write(landed) =>
      s.(crontab := if landed then Snapshot(true, s.phase.desired) else s.crontab, phase := Sent, unresolved := true)
    case Stop => s.(phase := Idle)
  }

  /** The pending record saved before a write is dispatched. */
  function Proposal(before: string, desired: string, replaced: Option<Digest>, identity: string): Record {
    var block := Held(desired, identity);
    Record(Pending, Sha(before), Sha(desired), replaced, if block.Some? then block.value else None)
  }

  predicate Initial(identity: string, s: State) {
    && s.record.None? && s.phase == Idle && s.generated == {} && !s.unresolved
    && (s.touched <==> Held(s.crontab.content, identity) != Some(None))
  }

  ghost predicate Run(identity: string, states: seq<State>, acts: seq<Act>) {
    && |states| == |acts| + 1 && Initial(identity, states[0])
    && forall i {:trigger acts[i]} :: 0 <= i < |acts| ==>
         Enabled(identity, states[i], acts[i]) && states[i + 1] == Next(identity, states[i], acts[i])
  }

  // ----- what every state keeps -----

  /** The crontab's block is the one the record holds for its status, or one of the two of a pending record. */
  predicate Agrees(identity: string, s: State) {
    var held := Held(s.crontab.content, identity);
    match s.record
    case None => held == Some(None)
    case Some(r) =>
      match r.status
      case Applied => held == Some(r.block)
      case NotApplied => held == Some(r.previousBlock)
      case Pending => held == Some(r.block) || held == Some(r.previousBlock)
  }

  predicate Generated(s: State, digest: Option<Digest>) { digest.Some? ==> digest.value.text in s.generated }

  ghost predicate Inv(identity: string, s: State) {
    && (s.record.Some? ==> Generated(s, s.record.value.block) && Generated(s, s.record.value.previousBlock))
    && (Unsettled(s.record) ==>
          && Held(s.record.value.desired.text, identity) == Some(s.record.value.block)
          && Held(s.record.value.previous.text, identity) == Some(s.record.value.previousBlock))
    && (s.unresolved ==> Unsettled(s.record))
    && (!s.touched ==> Agrees(identity, s))
    && (s.phase.Seen? && !s.touched ==> Held(s.phase.before.content, identity) == Held(s.crontab.content, identity))
    && (s.phase.Recorded? ==> InvRecorded(identity, s))
  }

  /** A recorded proposal replaces the owner's block, or adds one, and nothing else. */
  ghost predicate InvRecorded(identity: string, s: State)
    requires s.phase.Recorded?
  {
    var (before, fragment, desired) := (s.phase.before.content, s.phase.fragment, s.phase.desired);
    && Unsettled(s.record) && !s.unresolved
    && s.record.value.previous == Sha(before) && s.record.value.desired == Sha(desired)
    && Outside(before, identity).Some?
    && var (pre, post) := Outside(before, identity).value;
       desired == pre + Block(fragment, identity) + post
  }

  lemma StepKeepsInv(identity: string, s: State, act: Act)
    requires IsIdentity(identity) && Inv(identity, s) && Enabled(identity, s, act)
    ensures Inv(identity, Next(identity, s, act))
  {
    hide ScanFor, Block, Plain, Append;
    if act.Propose? {
      ProposeKeepsInv(identity, s, act.fragment);
    }
  }

  lemma ProposeKeepsInv(identity: string, s: State, fragment: string)
    requires IsIdentity(identity) && Inv(identity, s) && Enabled(identity, s, Propose(fragment))
    ensures Inv(identity, Next(identity, s, Propose(fragment)))
  {
    hide ScanFor, Block, Plain, Append;
    MergeShape(s.phase.before.content, fragment, identity);
  }

  lemma {:induction false} RunKeepsInv(identity: string, states: seq<State>, acts: seq<Act>, i: nat)
    requires IsIdentity(identity) && Run(identity, states, acts) && i < |states|
    ensures Inv(identity, states[i])
  {
    hide Inv, Enabled, Next;
    if i == 0 {
      InitialInv(identity, states[0]);
    } else {
      RunKeepsInv(identity, states, acts, i - 1);
      StepKeepsInv(identity, states[i - 1], acts[i - 1]);
    }
  }

  lemma InitialInv(identity: string, s: State)
    requires Initial(identity, s)
    ensures Inv(identity, s)
  {
  }

  // ----- the promises, over whole runs -----

  /** Until somebody else changes the block, it is the one the record answers for. */
  lemma BlockMatchesRecord(identity: string, states: seq<State>, acts: seq<Act>, i: nat)
    requires IsIdentity(identity) && Run(identity, states, acts) && i < |states| && !states[i].touched
    ensures Agrees(identity, states[i])
  {
    hide Agrees, Run;
    RunKeepsInv(identity, states, acts, i);
  }

  /** Whatever others do, a block that is replaced is one this owner generated. */
  lemma ReplacesOnlyOwnBlocks(identity: string, states: seq<State>, acts: seq<Act>, i: nat)
    requires IsIdentity(identity) && Run(identity, states, acts) && i < |acts| && acts[i].Propose?
    ensures var scan := ScanFor(states[i].phase.before.content, identity);
            scan.Found? ==> scan.block in states[i].generated
  {
    hide ScanFor, Agrees, Block, InvRecorded, Plain;
    RunKeepsInv(identity, states, acts, i);
    assert Enabled(identity, states[i], acts[i]);
  }

  /**
   * A write lands between exactly the texts the snapshot held outside the
   * block, and its pending record was saved before.
   */
  lemma WritesKeepTheRest(identity: string, states: seq<State>, acts: seq<Act>, i: nat)
    requires IsIdentity(identity) && Run(identity, states, acts) && i < |acts| && acts[i] == Write(true)
    ensures var s, after := states[i], states[i + 1].crontab.content;
            && Unsettled(s.record) && s.record.value.desired == Sha(after)
            && s.record.value.previous == Sha(s.phase.before.content)
            && Outside(s.phase.before.content, identity).Some?
            && var (pre, post) := Outside(s.phase.before.content, identity).value;
               && Around(s.phase.before.content, identity, pre, post)
               && after == pre + Block(s.phase.fragment, identity) + post
    ensures Framed(states[i].phase.fragment, identity, Block(states[i].phase.fragment, identity))
  {
    hide ScanFor, Agrees, Block, Held, Outside, Around, Framed;
    RunKeepsInv(identity, states, acts, i);
    assert Enabled(identity, states[i], acts[i]);
    OutsideMeans(states[i].phase.before.content, identity);
    BlockMeans(states[i].phase.fragment, identity);
  }

  /** Step `k` settles the very record under which step `a` wrote. */
  ghost predicate Settles(states: seq<State>, acts: seq<Act>, a: nat, k: nat) {
    a < k < |acts| < |states| && acts[k].Resolve? && states[k].record == states[a].record
  }

  /** Once dispatched, a write stays unresolved, under the same record, until it is settled. */
  lemma {:induction false} UnresolvedUntilSettled(identity: string, states: seq<State>, acts: seq<Act>, a: nat, b: nat)
    requires IsIdentity(identity) && Run(identity, states, acts) && a < b < |states| && acts[a].Write?
    ensures (states[b].unresolved && states[b].record == states[a].record)
         || exists k :: a < k < b && Settles(states, acts, a, k)
    decreases b
  {
    hide Held, Merge, Agrees, Outside;
    assert Enabled(identity, states[b - 1], acts[b - 1]);
    if b - 1 > a {
      UnresolvedUntilSettled(identity, states, acts, a, b - 1);
      RunKeepsInv(identity, states, acts, b - 1);
      if k :| a < k < b - 1 && Settles(states, acts, a, k) {
      } else if acts[b - 1].Resolve? {
        assert Settles(states, acts, a, b - 1);
      }
    }
  }

  /** No replay: between any two dispatched writes the first one's effect, or its absence, was read back. */
  lemma NoReplay(identity: string, states: seq<State>, acts: seq<Act>, a: nat, b: nat)
    requires IsIdentity(identity) && Run(identity, states, acts) && a < b < |acts| && acts[a].Write? && acts[b].Write?
    ensures exists k :: a < k < b && Settles(states, acts, a, k) && Reads(states[k], acts[k].status)
  {
    hide Inv, Reads;
    UnresolvedUntilSettled(identity, states, acts, a, b);
    RunKeepsInv(identity, states, acts, b);
    WriteIsResolved(identity, states, acts, b);
    var k :| a < k < b && Settles(states, acts, a, k);
    SettleReads(identity, states, acts, k);
  }

  /** The text just read back is the one the record's outcome stands for. */
  ghost predicate Reads(s: State, status: Status) {
    s.phase.Seen? && s.record.Some? && Sha(s.phase.before.content) == Observed(s.record.value, status)
  }

  lemma WriteIsResolved(identity: string, states: seq<State>, acts: seq<Act>, b: nat)
    requires Run(identity, states, acts) && b < |acts| && acts[b].Write? && Inv(identity, states[b])
    ensures !states[b].unresolved
  {
    assert Enabled(identity, states[b], acts[b]);
  }

  lemma SettleReads(identity: string, states: seq<State>, acts: seq<Act>, k: nat)
    requires Run(identity, states, acts) && k < |acts| && acts[k].Resolve?
    ensures Reads(states[k], acts[k].status)
  {
    assert Enabled(identity, states[k], acts[k]);
  }

  /** The ownership check can refuse only after somebody else changed the block. */
  lemma RefusalMeansTouched(identity: string, states: seq<State>, acts: seq<Act>, i: nat, fragment: string)
    requires IsIdentity(identity) && Run(identity, states, acts) && i < |states|
    requires states[i].phase.Seen? && !Unsettled(states[i].record)
    ensures var merged := Merge(states[i].phase.before.content, fragment, identity);
            merged.None? || !Owns(states[i].record, merged.value.1) ==> states[i].touched
  {
    hide ScanFor, Block, Append, Plain;
    RunKeepsInv(identity, states, acts, i);
  }

  // ----- install_fragment -----

  const MAX_FRAGMENT := 128 * 1024
  const MAX_CRONTAB := 1048576

  datatype Reason = InvalidFragment | Busy | Unreadable | WasNotApplied | StillUncertain | AmbiguousMarkers
                  | NotOwned | TooLarge | Invalid | ChangedMeanwhile | WriteNotApplied | WriteUncertain

  datatype Outcome = Installed(changed: bool) | Refused(reason: Reason) | Crashed

  predicate Acceptable(fragment: string) {
    '\0' !in fragment && |Framing.Utf8(fragment)| <= MAX_FRAGMENT && Plain(fragment)
  }

  /** What `_snapshot` lets through. */
  predicate Readable(c: Snapshot) {
    |Framing.Utf8(c.content)| <= MAX_CRONTAB && '\0' !in c.content && (c.present || c.content == "")
  }

  /** `_snapshot_equal`. */
  predicate SameCrontab(a: Snapshot, b: Snapshot) {
    a.content == b.content && (a.present == b.present || a.content == "")
  }

  /** The record once a pending one is read against the crontab. */
  ghost function Answered(record: Option<Record>, content: string): Option<Record> {
    if record.None? || record.value.status != Pending then record
    else if record.value.desired == Sha(content) then Some(record.value.(status := Applied))
    else if record.value.previous == Sha(content) then Some(record.value.(status := NotApplied))
    else record
  }

  /** Why an undisturbed call is refused, in the order it asks; `None` where it succeeds. */
  ghost function WhyRefused(identity: string, crontab: Snapshot, record: Option<Record>, fragment: string)
    : Option<Reason>
  {
    var digest := Sha(crontab.content);
    var pending := record.Some? && record.value.status == Pending;
    var answers := if record.None? then None
                   else if pending || record.value.status == Applied then record.value.block
                   else record.value.previousBlock;
    if '\0' in fragment || |Framing.Utf8(fragment)| > 131072 || Contains(fragment, WORD) then Some(InvalidFragment)
    else if |Framing.Utf8(crontab.content)| > 1048576 || '\0' in crontab.content
        || (!crontab.present && crontab.content != "") then Some(Unreadable)
    else if pending && record.value.desired != digest then
      Some(if record.value.previous == digest then WasNotApplied else StillUncertain)
    else
      match Merge(crontab.content, fragment, identity)
      case None => Some(AmbiguousMarkers)
      case Some((desired, replaced)) =>
        if replaced.Some? && replaced != answers then Some(NotOwned)
        else if desired != crontab.content && |Framing.Utf8(desired)| > 1048576 then Some(TooLarge)
        else None
  }

  /** The crontab and the record after an undisturbed call that succeeds: the merged text, and the record of that write,
      or the earlier record settled where there was nothing to write. */
  ghost predicate Entered(identity: string, crontab: Snapshot, record: Option<Record>, fragment: string,
                          later: Snapshot, laterRecord: Option<Record>)
  {
    && Merge(crontab.content, fragment, identity).Some? && Outside(crontab.content, identity).Some?
    && var (pre, post) := Outside(crontab.content, identity).value;
       && Around(crontab.content, identity, pre, post) && Framed(fragment, identity, Block(fragment, identity))
       && later.content == (if fragment == "" && ScanFor(crontab.content, identity).Absent? then crontab.content
                            else pre + Block(fragment, identity) + post)
       && if later.content == crontab.content then
            later == crontab && laterRecord == Answered(record, crontab.content)
          else
            && later.present && laterRecord.Some? && laterRecord.value.status == Applied
            && laterRecord.value.previous == Sha(crontab.content) && laterRecord.value.desired == Sha(later.content)
            && Held(crontab.content, identity) == Some(laterRecord.value.previousBlock)
            && Held(later.content, identity) == Some(laterRecord.value.block)
  }

  lemma WhyMeans(identity: string, crontab: Snapshot, record: Option<Record>, fragment: string)
    ensures var why, digest := WhyRefused(identity, crontab, record, fragment), Sha(crontab.content);
            var pending := Unsettled(record) && record.value.desired != digest;
            if !Acceptable(fragment) then why == Some(InvalidFragment)
            else if !Readable(crontab) then why == Some(Unreadable)
            else if pending then why == Some(if record.value.previous == digest then WasNotApplied else StillUncertain)
            else
              match Merge(crontab.content, fragment, identity)
              case None => why == Some(AmbiguousMarkers)
              case Some((desired, replaced)) =>
                if !Owns(Answered(record, crontab.content), replaced) then why == Some(NotOwned)
                else if desired != crontab.content && |Framing.Utf8(desired)| > MAX_CRONTAB then why == Some(TooLarge)
                else why == None
  {
    hide Merge, Contains;
  }

  lemma NoNul(identity: string)
    requires IsIdentity(identity)
    ensures '\0' !in Begin(identity) && '\0' !in End(identity)
  {
    assert '\0' !in "# BEGIN " && '\0' !in "# END " && '\0' !in WORD && '\0' !in " target=";
    assert '\0' !in identity by {
      assert '\0' !in "0123456789abcdef";
    }
    hide IsIdentity;
  }

  /** Merging into a readable crontab gives a readable one, unless it grows too large. */
  lemma DesiredReadable(identity: string, content: string, fragment: string)
    requires IsIdentity(identity) && Acceptable(fragment) && '\0' !in content
    requires Merge(content, fragment, identity).Some?
    requires |Framing.Utf8(Merge(content, fragment, identity).value.0)| <= MAX_CRONTAB
    ensures Readable(Snapshot(true, Merge(content, fragment, identity).value.0))
  {
    hide Merge, Plain, IsIdentity;
    NoNul(identity);
    MergeAddsOnly(content, fragment, identity, '\0');
  }

  /** What an undisturbed write leaves, and what is left where nothing had to be written. */
  lemma EnteredSo(identity: string, crontab: Snapshot, record: Option<Record>, fragment: string)
    requires IsIdentity(identity) && Plain(fragment) && Merge(crontab.content, fragment, identity).Some?
    ensures var (desired, replaced) := Merge(crontab.content, fragment, identity).value;
            if desired == crontab.content then
              Entered(identity, crontab, record, fragment, crontab, Answered(record, crontab.content))
            else
              Entered(identity, crontab, record, fragment, Snapshot(true, desired),
                      Some(Proposal(crontab.content, desired, replaced, identity).(status := Applied)))
  {
    hide ScanFor, Block, Append, Around, Framed, Plain, IsIdentity;
    MergeMeans(crontab.content, fragment, identity);
    MergeShape(crontab.content, fragment, identity);
  }

  /** One target's crontab entry and ownership record, with the history of every primitive step. */
  class HeartbeatOwner {
    const identity: string
    var crontab: Snapshot
    var record: Option<Record>
    ghost var states: seq<State>
    ghost var acts: seq<Act>

    /** The fields are the last state of a run. */
    ghost predicate Tracks()
      reads this
    {
      && IsIdentity(identity) && Run(identity, states, acts)
      && Now().crontab == crontab && Now().record == record
    }

    ghost function Now(): State
      requires states != []
      reads this
    {
      states[|states| - 1]
    }

    ghost predicate Valid()
      reads this
    {
      Tracks() && Now().phase == Idle
    }

    constructor (identity: string, crontab: Snapshot)
      requires IsIdentity(identity)
      ensures Valid() && this.identity == identity && this.crontab == crontab && record.None?
    {
      this.identity, this.crontab, record := identity, crontab, None;
      states := [State(crontab, None, Idle, {}, false, Held(crontab.content, identity) != Some(None))];
      acts := [];
    }

    method Interfere(calm: bool)
      requires Tracks()
      modifies this
      ensures Tracks() && record == old(record) && Now().phase == old(Now().phase)
      ensures Grew(old(states), old(acts))
      ensures calm ==> crontab == old(crontab)
    {
      var busy: bool := *;
      if busy && !calm {
        var c: Snapshot := *;
        crontab := c;
        Note(Others(c));
      }
    }

    /** Appends a step that the fields already show. */
    ghost method Note(act: Act)
      requires IsIdentity(identity) && Run(identity, states, acts) && Enabled(identity, Now(), act)
      requires Next(identity, Now(), act).crontab == crontab && Next(identity, Now(), act).record == record
      modifies this`states, this`acts
      ensures Tracks() && states == old(states) + [Next(identity, old(Now()), act)] && acts == old(acts) + [act]
    {
      states := states + [Next(identity, Now(), act)];
      acts := acts + [act];
    }

    /** `_snapshot`: somebody may have edited meanwhile, and reading may fail. */
    method Look(calm: bool) returns (c: Option<Snapshot>)
      requires Tracks() && !Now().phase.Recorded?
      modifies this
      ensures Tracks() && record == old(record)
      ensures Grew(old(states), old(acts))
      ensures c.Some? ==> Now().phase == Seen(c.value) && Readable(c.value)
      ensures c.None? ==> Now().phase == old(Now().phase)
      ensures calm ==> crontab == old(crontab) && c == if Readable(crontab) then Some(crontab) else None
    {
      hide Held, Readable;
      Interfere(calm);
      var failed: bool := *;
      if (failed && !calm) || !Readable(crontab) {
        return None;
      }
      Note(Read);
      c := Some(crontab);
    }

    /** History only grew, and without a write. */
    ghost predicate Grew(formerStates: seq<State>, formerActs: seq<Act>)
      reads this
    {
      formerStates <= states && formerActs <= acts
      && forall i :: |formerActs| <= i < |acts| ==> !acts[i].Write?
    }

    /** Saves the record with the outcome just read back. */
    method Settle(status: Status)
      requires Tracks() && Enabled(identity, Now(), Resolve(status))
      modifies this
      ensures Tracks() && Grew(old(states), old(acts)) && crontab == old(crontab)
      ensures Now().phase == old(Now().phase) && record == Some(old(record).value.(status := status))
    {
      record := Some(record.value.(status := status));
      Note(Resolve(status));
    }

    /** Settles a record left pending by an earlier call, or stops: its write is never repeated. */
    method SettleEarlier(before: Snapshot) returns (stop: Option<Outcome>)
      requires Tracks() && Now().phase == Seen(before)
      modifies this
      ensures Tracks() && Grew(old(states), old(acts)) && crontab == old(crontab) && Now().phase == Seen(before)
      ensures record == Answered(old(record), before.content)
      ensures stop.None? <==> !Unsettled(old(record)) || old(record).value.desired == Sha(before.content)
      ensures stop.Some? ==>
                stop == Some(Refused(if Unsettled(record) then StillUncertain else WasNotApplied))
    {
      hide Run, Held;
      if !Unsettled(record) {
        return None;
      }
      if Sha(before.content) == record.value.desired {
        Settle(Applied);
        return None;
      }
      if Sha(before.content) == record.value.previous {
        Settle(NotApplied);
        return Some(Refused(WasNotApplied));
      }
      stop := Some(Refused(StillUncertain));
    }

    /** `install_fragment`; the process may stop after any primitive step. */
    method Install(fragment: string, calm: bool) returns (res: Outcome)
      requires Valid()
      modifies this
      ensures Valid() && old(states) <= states && old(acts) <= acts && OneWrite(old(acts))
      ensures res.Installed? ==> !Unsettled(record)
      ensures calm ==>
                match WhyRefused(identity, old(crontab), old(record), fragment)
                case Some(reason) =>
                  && res == Refused(reason) && crontab == old(crontab)
                  && record == (if reason == InvalidFragment || reason == Unreadable then old(record)
                                else Answered(old(record), old(crontab).content))
                case None =>
                  && Entered(identity, old(crontab), old(record), fragment, crontab, record)
                  && res == Installed(crontab.content != old(crontab).content)
    {
      hide Run, Readable, Merge, Plain, Contains, Answered, Entered, WhyRefused;
      WhyMeans(identity, crontab, record, fragment);
      var free: bool := *;
      if !Acceptable(fragment) {
        return Refused(InvalidFragment);
      }
      if !free && !calm {
        return Refused(Busy);
      }
      res := Attempt(fragment, calm);
      Note(Stop);
    }

    /** At most one write since the given point. */
    ghost predicate OneWrite(formerActs: seq<Act>)
      reads this
    {
      forall i, j :: |formerActs| <= i < |acts| && |formerActs| <= j < |acts| && acts[i].Write? && acts[j].Write? ==>
          i == j
    }

    method Attempt(fragment: string, calm: bool) returns (res: Outcome)
      requires Valid() && Acceptable(fragment) && Plain(fragment)
      modifies this
      ensures Tracks() && old(states) <= states && old(acts) <= acts && OneWrite(old(acts))
      ensures res.Installed? ==> !Unsettled(record)
      ensures calm ==>
                match WhyRefused(identity, old(crontab), old(record), fragment)
                case Some(reason) =>
                  && res == Refused(reason) && crontab == old(crontab)
                  && record == (if reason == InvalidFragment || reason == Unreadable then old(record)
                                else Answered(old(record), old(crontab).content))
                case None =>
                  && Entered(identity, old(crontab), old(record), fragment, crontab, record)
                  && res == Installed(crontab.content != old(crontab).content)
    {
      hide Acceptable, Run, Readable, Merge, Owns, Held, Plain, WhyRefused, Entered, Proposal;
      WhyMeans(identity, crontab, record, fragment);
      var seen := Look(calm);
      if seen.None? {
        return Refused(Unreadable);
      }
      var before := seen.value;
      var stop := SettleEarlier(before);
      if stop.Some? {
        return stop.value;
      }
      var merged := Merge(before.content, fragment, identity);
      if merged.None? {
        return Refused(AmbiguousMarkers);
      }
      var (desired, replaced) := merged.value;
      EnteredSo(identity, before, old(record), fragment);
      if !Owns(record, replaced) {
        return Refused(NotOwned);
      }
      if desired == before.content {
        return Installed(false);
      }
      if |Framing.Utf8(desired)| > MAX_CRONTAB {
        return Refused(TooLarge);
      }
      NoNulRead(before);
      DesiredReadable(identity, before.content, fragment);
      res := Dispatch(before, fragment, desired, calm);
    }

    /** Backup, the second look, the pending record, the one write, and the read-back. */
    method Dispatch(before: Snapshot, fragment: string, desired: string, calm: bool) returns (res: Outcome)
      requires Tracks() && Now().phase == Seen(before) && !Unsettled(record) && Plain(fragment)
      requires Merge(before.content, fragment, identity).Some?
      requires desired == Merge(before.content, fragment, identity).value.0 != before.content
      requires Owns(record, Merge(before.content, fragment, identity).value.1)
      requires Readable(before) && (calm ==> crontab == before && Readable(Snapshot(true, desired)))
      modifies this
      ensures Tracks() && old(states) <= states && old(acts) <= acts && OneWrite(old(acts))
      ensures res.Installed? ==> res.changed && !Unsettled(record)
      ensures calm ==> res == Installed(true) && crontab == Snapshot(true, desired)
      ensures calm ==>
                record == Some(Proposal(before.content, desired, Merge(before.content, fragment, identity).value.1,
                                        identity).(status := Applied))
    {
      hide Acceptable, Run, Readable, Merge, Owns, Held, Plain;
      var refused: bool := *;
      if refused && !calm {
        return Refused(Invalid);
      }
      var again := Look(calm);
      if again.None? {
        return Refused(Unreadable);
      }
      if !SameCrontab(before, again.value) {
        return Refused(ChangedMeanwhile);
      }
      SaveProposal(again.value, fragment, desired);
      var stopped: bool := *;
      if stopped && !calm {
        return Crashed;
      }
      Interfere(calm);
      Send(desired, calm);
      res := ReadBack(before, desired, calm);
    }

    method SaveProposal(before: Snapshot, fragment: string, desired: string)
      requires Tracks() && Now().phase == Seen(before) && !Unsettled(record) && Plain(fragment)
      requires Merge(before.content, fragment, identity).Some?
      requires desired == Merge(before.content, fragment, identity).value.0 != before.content
      requires Owns(record, Merge(before.content, fragment, identity).value.1)
      modifies this
      ensures Tracks() && Grew(old(states), old(acts)) && crontab == old(crontab)
      ensures Now().phase == Recorded(before, fragment, desired)
      ensures record == Some(Proposal(before.content, desired, Merge(before.content, fragment, identity).value.1,
                                      identity))
    {
      hide Run, Owns, Merge, Held;
      record := Some(Proposal(before.content, desired, Merge(before.content, fragment, identity).value.1, identity));
      Note(Propose(fragment));
    }

    /** `write_crontab`: it takes effect or not, and its answer is not trusted either way. */
    method Send(desired: string, calm: bool)
      requires Tracks() && Now().phase.Recorded? && Now().phase.desired == desired
      modifies this
      ensures Tracks() && old(states) <= states && old(acts) <= acts && |acts| == |old(acts)| + 1
      ensures record == old(record) && Now().phase == Sent
      ensures calm ==> crontab == Snapshot(true, desired)
    {
      var lost: bool := *;
      if lost && !calm {
        Note(Write(false));
      } else {
        crontab := Snapshot(true, desired);
        Note(Write(true));
      }
    }

    /** `_write_and_reconcile` after the write: the crontab decides the outcome. */
    method ReadBack(before: Snapshot, desired: string, calm: bool) returns (res: Outcome)
      requires Tracks() && Now().phase == Sent && Unsettled(record) && desired != before.content
      requires record.value.previous == Sha(before.content) && record.value.desired == Sha(desired)
      requires Readable(before) && (calm ==> crontab == Snapshot(true, desired) && Readable(crontab))
      modifies this
      ensures Tracks() && Grew(old(states), old(acts))
      ensures match res
              case Installed(changed) => changed && record == Some(old(record).value.(status := Applied))
              case Refused(WriteNotApplied) => record == Some(old(record).value.(status := NotApplied))
              case _ => record == old(record)
      ensures res == Refused(WriteUncertain) ==>
                Now().phase.Seen? ==> Now().phase.before.content !in {desired, before.content}
      ensures calm ==> res == Installed(true) && crontab == old(crontab)
    {
      hide Run, Readable, Held;
      var observed := Look(calm);
      if observed.None? {
        return Refused(WriteUncertain);
      }
      SameWhereReadable(observed.value, before);
      var stopped: bool := *;
      if stopped && !calm {
        return Crashed;
      }
      if observed.value.content == desired && (observed.value.present || desired == "") {
        Settle(Applied);
        return Installed(true);
      }
      if SameCrontab(observed.value, before) {
        Settle(NotApplied);
        return Refused(WriteNotApplied);
      }
      res := Refused(WriteUncertain);
    }
  }

  lemma SameWhereReadable(a: Snapshot, b: Snapshot)
    requires Readable(a) && Readable(b)
    ensures SameCrontab(a, b) <==> a.content == b.content
    ensures a.present || a.content == ""
  {
  }

  lemma NoNulRead(c: Snapshot)
    requires Readable(c)
    ensures '\0' !in c.content
  {
  }
}
