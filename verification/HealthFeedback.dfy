/** No-replay publication of feedback events as issues (ls/core/health_feedback.py): values and runs. */
module HealthFeedback {
  import opened Wrappers
  import opened IssueHandoff

  type EventId = nat
  type TargetId = nat

  datatype Issue = Issue(title: string, body: string, labels: seq<string>, isOpen: bool, comments: seq<string>)

  /** One repository's issues; an issue's number is its position. */
  type Remote = seq<Issue>

  datatype Action = Create | Comment(issue: nat) | Noop(issue: nat)

  /** The prepared payload; its digest, being collision-free, is the plan itself. */
  datatype Plan = Plan(event: EventId, evidence: Evidence, target: TargetId, action: Action)

  datatype Receipt =
    | Absent
    | Prepared(plan: Plan)
    | Dispatching(plan: Plan)
    | Unknown(plan: Plan)
    | Verified(plan: Plan)

  /** Where the process holding an event's lock stands; all but the first also hold the target's lock. */
  datatype Phase =
    | Preparing(plan: Plan)
    | Checked(plan: Plan)
    | Saved(plan: Plan)
    | Called(plan: Plan, landed: bool)

  datatype World = World(
    evidence: map<EventId, Evidence>,
    plans: map<EventId, Plan>,
    receipts: map<EventId, Receipt>,
    remotes: map<TargetId, Remote>,
    busy: map<EventId, Phase>,
    calls: seq<Plan>)

  const MAX_ISSUES := 500

  function ReceiptOf(w: World, e: EventId): Receipt { if e in w.receipts then w.receipts[e] else Absent }

  function RemoteOf(w: World, t: TargetId): Remote { if t in w.remotes then w.remotes[t] else [] }

  /** A dispatch receipt: immutable from here on. */
  predicate Dispatched(r: Receipt) { r.Dispatching? || r.Unknown? || r.Verified? }

  // ----- the duplicate decision -----

  /** `Some` of the last comment that hands the fingerprint on. */
  function LastHandoff(decode: Decoder, comments: seq<string>, fingerprint: string): Option<string> {
    if comments == [] then None
    else
      var last := comments[|comments| - 1];
      if Extract(decode, last) == Some(fingerprint) then Some(last)
      else LastHandoff(decode, comments[..|comments| - 1], fingerprint)
  }

  predicate Matches(decode: Decoder, fingerprint: string, issue: Issue) {
    Extract(decode, issue.body) == Some(fingerprint) || LastHandoff(decode, issue.comments, fingerprint).Some?
  }

  function Latest(decode: Decoder, fingerprint: string, issue: Issue): string {
    match LastHandoff(decode, issue.comments, fingerprint)
    case Some(body) => body
    case None => issue.body
  }

  /** The comment hands the fingerprint on. */
  predicate HandsOn(decode: Decoder, fingerprint: string, comments: seq<string>, k: int) {
    0 <= k < |comments| && Extract(decode, comments[k]) == Some(fingerprint)
  }

  /** The comment is the last one that hands the fingerprint on. */
  ghost predicate LastOne(decode: Decoder, fingerprint: string, comments: seq<string>, k: int) {
    HandsOn(decode, fingerprint, comments, k) && forall j :: HandsOn(decode, fingerprint, comments, j) ==> j <= k
  }

  /** The text is that of the last comment that hands the fingerprint on, or of the body where none does. */
  ghost predicate LastWord(decode: Decoder, fingerprint: string, issue: Issue, text: string) {
    || (exists k :: LastOne(decode, fingerprint, issue.comments, k) && text == issue.comments[k])
    || ((forall k :: !HandsOn(decode, fingerprint, issue.comments, k)) && text == issue.body)
  }

  lemma {:induction false} LastHandoffIsLast(decode: Decoder, comments: seq<string>, fingerprint: string)
    ensures LastHandoff(decode, comments, fingerprint).None? <==>
              forall k :: !HandsOn(decode, fingerprint, comments, k)
    ensures LastHandoff(decode, comments, fingerprint).Some? ==>
              exists k :: LastOne(decode, fingerprint, comments, k)
                          && LastHandoff(decode, comments, fingerprint) == Some(comments[k])
  {
    hide Extract;
    if comments != [] {
      var n := |comments| - 1;
      var front := comments[..n];
      LastHandoffIsLast(decode, front, fingerprint);
      assert forall k :: HandsOn(decode, fingerprint, comments, k) <==>
               HandsOn(decode, fingerprint, front, k) || (k == n && Extract(decode, comments[n]) == Some(fingerprint));
      if Extract(decode, comments[n]) == Some(fingerprint) {
        assert LastOne(decode, fingerprint, comments, n);
      } else if LastHandoff(decode, front, fingerprint).Some? {
        var k :| LastOne(decode, fingerprint, front, k) && LastHandoff(decode, front, fingerprint) == Some(front[k]);
        assert LastOne(decode, fingerprint, comments, k);
      }
    }
  }

  /** What the duplicate decision compares is the issue's last word under the fingerprint, and nothing else. */
  lemma LatestIsLastWord(decode: Decoder, fingerprint: string, issue: Issue, text: string)
    ensures Latest(decode, fingerprint, issue) == text <==> LastWord(decode, fingerprint, issue, text)
  {
    hide Extract, LastHandoff, HandsOn;
    LastHandoffIsLast(decode, issue.comments, fingerprint);
    forall j, k | LastOne(decode, fingerprint, issue.comments, j) && LastOne(decode, fingerprint, issue.comments, k)
      ensures j == k
    {
    }
  }

  /** An issue is read under what its body or one of its comments names. */
  lemma MatchesMeans(decode: Decoder, fingerprint: string, issue: Issue)
    ensures Matches(decode, fingerprint, issue) <==>
              || Extract(decode, issue.body) == Some(fingerprint)
              || exists k :: HandsOn(decode, fingerprint, issue.comments, k)
  {
    hide Extract, LastHandoff, HandsOn;
    LastHandoffIsLast(decode, issue.comments, fingerprint);
  }

  /** The numbers of the issues that satisfy `keep`, ascending. */
  function Numbers(remote: Remote, keep: Issue -> bool): (r: seq<nat>)
    ensures forall i :: i in r <==> 0 <= i < |remote| && keep(remote[i])
  {
    if remote == [] then []
    else
      var n := |remote| - 1;
      var front := Numbers(remote[..n], keep);
      assert forall i :: i in front <==> 0 <= i < n && keep(remote[i]);
      front + (if keep(remote[n]) then [n] else [])
  }

  predicate Ascending(numbers: seq<nat>) { forall j, k :: 0 <= j < k < |numbers| ==> numbers[j] < numbers[k] }

  lemma {:induction false} NumbersAscend(remote: Remote, keep: Issue -> bool)
    ensures Ascending(Numbers(remote, keep))
  {
    if remote != [] {
      var n := |remote| - 1;
      var front := Numbers(remote[..n], keep);
      NumbersAscend(remote[..n], keep);
      forall j | 0 <= j < |front|
        ensures front[j] < n
      {
        assert front[j] in front;
      }
      assert Ascending(front + [n]);
    }
  }

  /** `_decision`; `None` where it raises. */
  function Decide(decode: Decoder, remote: Remote, e: Evidence): Option<Action> {
    var matching := (issue: Issue) => Matches(decode, e.fingerprint, issue);
    var active := Numbers(remote, (issue: Issue) => matching(issue) && issue.isOpen);
    var repeated := (issue: Issue) => matching(issue) && Latest(decode, e.fingerprint, issue) == IssueBody(e);
    var same := Numbers(remote, repeated);
    if |remote| > MAX_ISSUES || |active| > 1 then None
    else if active != [] then
      assert active[0] in active;
      Some(if Latest(decode, e.fingerprint, remote[active[0]]) == IssueBody(e) then Noop(active[0])
           else Comment(active[0]))
    else if same != [] then Some(Noop(same[0]))
    else Some(Create)
  }

  /** `_material`: the payload as the evidence and the repository stand now. */
  function Material(decode: Decoder, w: World, e: EventId, t: TargetId): Option<Plan> {
    if e !in w.evidence then None
    else
      match Decide(decode, RemoteOf(w, t), w.evidence[e])
      case None => None
      case Some(action) => Some(Plan(e, w.evidence[e], t, action))
  }

  /** What one remote call adds. */
  function Publish(remote: Remote, plan: Plan): Remote {
    match plan.action
    case Create =>
      remote + [Issue(plan.evidence.title, IssueBody(plan.evidence), plan.evidence.labels, true, [])]
    case Comment(i) =>
      if i < |remote| then remote[i := remote[i].(comments := remote[i].comments + [IssueBody(plan.evidence)])]
      else remote
    case Noop(_) => remote
  }

  /** `_reconcile`: exactly one issue or comment carries the planned body. */
  predicate SeenOnce(remote: Remote, plan: Plan) {
    match plan.action
    case Create => |Numbers(remote, (issue: Issue) => issue.body == IssueBody(plan.evidence))| == 1
    case Comment(i) => i < |remote| && multiset(remote[i].comments)[IssueBody(plan.evidence)] == 1
    case Noop(_) => true
  }

  // ----- one step -----

  datatype Act =
    | Revise(event: EventId, evidence: Evidence)
    | SavePlan(event: EventId, plan: Plan)
    | SavePrepared(event: EventId)
    | Check(event: EventId, approved: Plan)
    | SaveNoop(event: EventId)
    | SaveDispatching(event: EventId)
    | Call(event: EventId, landed: bool)
    | Acknowledge(event: EventId, verified: bool)
    | Reconcile(event: EventId, approved: Plan, read: bool)
    | Crash(event: EventId)
    | Close(target: TargetId, issue: nat)
    | Foreign(target: TargetId, remote: Remote)

  /** No process holds the target's lock. */
  predicate TargetFree(w: World, t: TargetId) {
    forall e :: e in w.busy && !w.busy[e].Preparing? ==> w.busy[e].plan.target != t
  }

  /** The stored plan and receipt are exactly the approved payload. */
  predicate Exact(w: World, e: EventId, approved: Plan) {
    e in w.plans && w.plans[e] == approved && ReceiptOf(w, e) != Absent && ReceiptOf(w, e).plan == approved
  }

  predicate Enabled(decode: Decoder, w: World, act: Act) {
    match act
    case Revise(_, _) => true
    case SavePlan(e, plan) => e !in w.busy && !Dispatched(ReceiptOf(w, e)) && plan.event == e
    case SavePrepared(e) => e in w.busy && w.busy[e].Preparing?
    case Check(e, approved) =>
      && e !in w.busy && Exact(w, e, approved) && ReceiptOf(w, e).Prepared? && TargetFree(w, approved.target)
      && Material(decode, w, e, approved.target) == Some(approved)
    case SaveNoop(e) => e in w.busy && w.busy[e].Checked? && w.busy[e].plan.action.Noop?
    case SaveDispatching(e) => e in w.busy && w.busy[e].Checked? && !w.busy[e].plan.action.Noop?
    case Call(e, _) => e in w.busy && w.busy[e].Saved?
    case Acknowledge(e, verified) => e in w.busy && w.busy[e].Called? && (verified ==> w.busy[e].landed)
    case Reconcile(e, approved, _) =>
      && e !in w.busy && Exact(w, e, approved) && (ReceiptOf(w, e).Dispatching? || ReceiptOf(w, e).Unknown?)
      && TargetFree(w, approved.target)
    case Crash(e) => e in w.busy
    case Close(t, i) => i < |RemoteOf(w, t)|
    case Foreign(_, _) => true
  }

  function Next(decode: Decoder, w: World, act: Act): World
    requires Enabled(decode, w, act)
  {
    match act
    case Revise(e, evidence) => w.(evidence := w.evidence[e := evidence])
    case SavePlan(e, plan) => w.(plans := w.plans[e := plan], busy := w.busy[e := Preparing(plan)])
    case SavePrepared(e) => w.(receipts := w.receipts[e := Prepared(w.busy[e].plan)], busy := w.busy - {e})
    case Check(e, approved) => w.(busy := w.busy[e := Checked(approved)])
    case SaveNoop(e) => w.(receipts := w.receipts[e := Verified(w.busy[e].plan)], busy := w.busy - {e})
    case SaveDispatching(e) =>
      w.(receipts := w.receipts[e := Dispatching(w.busy[e].plan)], busy := w.busy[e := Saved(w.busy[e].plan)])
    case Call(e, landed) =>
      var plan := w.busy[e].plan;
      w.(calls := w.calls + [plan], busy := w.busy[e := Called(plan, landed)],
         remotes := if landed then w.remotes[plan.target := Publish(RemoteOf(w, plan.target), plan)] else w.remotes)
    case Acknowledge(e, verified) =>
      var plan := w.busy[e].plan;
      w.(receipts := w.receipts[e := if verified then Verified(plan) else Unknown(plan)], busy := w.busy - {e})
    case Reconcile(e, approved, read) =>
      if read && SeenOnce(RemoteOf(w, approved.target), approved) then
        w.(receipts := w.receipts[e := Verified(approved)])
      else w
    case Crash(e) => w.(busy := w.busy - {e})
    case Close(t, i) => w.(remotes := w.remotes[t := RemoteOf(w, t)[i := RemoteOf(w, t)[i].(isOpen := false)]])
    case Foreign(t, remote) => w.(remotes := w.remotes[t := remote])
  }

  /** Nothing submitted yet; evidence and issues may be anything. */
  predicate Initial(w: World) { w.plans == map[] && w.receipts == map[] && w.busy == map[] && w.calls == [] }

  ghost predicate Run(decode: Decoder, worlds: seq<World>, acts: seq<Act>) {
    && |worlds| == |acts| + 1 && Initial(worlds[0])
    && forall i {:trigger acts[i]} :: 0 <= i < |acts| ==>
         Enabled(decode, worlds[i], acts[i]) && worlds[i + 1] == Next(decode, worlds[i], acts[i])
  }

  // ----- receipts and calls -----

  ghost predicate InvEvent(w: World, e: EventId) {
    && (e in w.plans ==> w.plans[e].event == e)
    && (ReceiptOf(w, e) != Absent ==> ReceiptOf(w, e).plan.event == e)
    && (e in w.busy ==> w.busy[e].plan.event == e)
    && (e in w.busy && w.busy[e].Preparing? ==> !Dispatched(ReceiptOf(w, e)))
    && (e in w.busy && w.busy[e].Checked? ==> ReceiptOf(w, e) == Prepared(w.busy[e].plan))
    && (e in w.busy && (w.busy[e].Saved? || w.busy[e].Called?) ==> ReceiptOf(w, e) == Dispatching(w.busy[e].plan))
    && (e in w.busy && !w.busy[e].Called? ==> NoCall(w, e))
    && (forall k {:trigger w.calls[k]} :: 0 <= k < |w.calls| && w.calls[k].event == e ==>
          Dispatched(ReceiptOf(w, e)) && ReceiptOf(w, e).plan == w.calls[k])
  }

  ghost predicate NoCall(w: World, e: EventId) { forall k :: 0 <= k < |w.calls| ==> w.calls[k].event != e }

  ghost predicate Inv(w: World) {
    && (forall e {:trigger InvEvent(w, e)} :: InvEvent(w, e))
    && (forall i, j :: 0 <= i < j < |w.calls| ==> w.calls[i].event != w.calls[j].event)
  }

  lemma StepKeepsInv(decode: Decoder, w: World, act: Act)
    requires Inv(w) && Enabled(decode, w, act)
    ensures Inv(Next(decode, w, act))
  {
    var w' := Next(decode, w, act);
    forall e {:trigger InvEvent(w', e)}
      ensures InvEvent(w', e)
    {
      EventStep(decode, w, act, e);
    }
    if act.Call? {
      assert InvEvent(w, act.event);
    }
  }

  lemma EventStep(decode: Decoder, w: World, act: Act, e: EventId)
    requires InvEvent(w, e) && Enabled(decode, w, act)
    requires act.Call? ==> InvEvent(w, act.event)
    ensures InvEvent(Next(decode, w, act), e)
  {
    hide Material, SeenOnce, Publish, TargetFree;
  }

  lemma {:induction false} RunKeepsInv(decode: Decoder, worlds: seq<World>, acts: seq<Act>, i: nat)
    requires Run(decode, worlds, acts) && i < |worlds|
    ensures Inv(worlds[i])
  {
    hide Inv, Enabled, Next;
    if i == 0 {
      InitialInv(worlds[0]);
    } else {
      RunKeepsInv(decode, worlds, acts, i - 1);
      StepKeepsInv(decode, worlds[i - 1], acts[i - 1]);
    }
  }

  lemma InitialInv(w: World)
    requires Initial(w)
    ensures Inv(w)
  {
    forall e {:trigger InvEvent(w, e)}
      ensures InvEvent(w, e)
    {
    }
  }

  /** Over any run of prepares, submissions, crashes and retries, an event reaches the remote at most once. */
  lemma AtMostOneCall(decode: Decoder, worlds: seq<World>, acts: seq<Act>, i: nat)
    requires Run(decode, worlds, acts) && i < |worlds|
    ensures forall a, b :: 0 <= a < b < |worlds[i].calls| ==> worlds[i].calls[a].event != worlds[i].calls[b].event
  {
    hide Run, InvEvent;
    RunKeepsInv(decode, worlds, acts, i);
  }

  /** Step `a` found the plan approved, stored, receipted, and still the exact material. */
  ghost predicate ApprovedAt(decode: Decoder, worlds: seq<World>, acts: seq<Act>, a: nat, plan: Plan) {
    && a < |acts| < |worlds| && acts[a] == Check(plan.event, plan)
    && Exact(worlds[a], plan.event, plan) && Material(decode, worlds[a], plan.event, plan.target) == Some(plan)
  }

  ghost predicate Approved(decode: Decoder, worlds: seq<World>, acts: seq<Act>, i: nat, plan: Plan) {
    exists a: nat :: a < i && ApprovedAt(decode, worlds, acts, a, plan)
  }

  /** Every call published the exact plan approved for its event, as the evidence and the remote still warranted it. */
  lemma {:induction false} CallsAreApproved(decode: Decoder, worlds: seq<World>, acts: seq<Act>, i: nat)
    requires Run(decode, worlds, acts) && i < |worlds|
    ensures forall k {:trigger worlds[i].calls[k]} :: 0 <= k < |worlds[i].calls| ==>
              Approved(decode, worlds, acts, i, worlds[i].calls[k])
    ensures forall e {:trigger worlds[i].busy[e]} :: e in worlds[i].busy && !worlds[i].busy[e].Preparing? ==>
              Approved(decode, worlds, acts, i, worlds[i].busy[e].plan)
  {
    hide Enabled, Next, Approved, Inv;
    if i > 0 {
      CallsAreApproved(decode, worlds, acts, i - 1);
      ApprovedLater(decode, worlds, acts, i);
      var act, w := acts[i - 1], worlds[i - 1];
      CallStep(decode, w, act);
      forall e {:trigger worlds[i].busy[e]} | e in worlds[i].busy && !worlds[i].busy[e].Preparing?
        ensures Approved(decode, worlds, acts, i, worlds[i].busy[e].plan)
      {
        PhaseStep(decode, w, act, e);
        if act.Check? {
          RunKeepsInv(decode, worlds, acts, i - 1);
          CheckApproves(decode, worlds, acts, i - 1);
        }
      }
    }
  }

  lemma CallStep(decode: Decoder, w: World, act: Act)
    requires Enabled(decode, w, act)
    ensures var w' := Next(decode, w, act);
            if act.Call? then
              act.event in w.busy && w.busy[act.event].Saved? && w'.calls == w.calls + [w.busy[act.event].plan]
            else w'.calls == w.calls
  {
  }

  lemma PhaseStep(decode: Decoder, w: World, act: Act, e: EventId)
    requires Enabled(decode, w, act) && e in Next(decode, w, act).busy && !Next(decode, w, act).busy[e].Preparing?
    ensures var plan := Next(decode, w, act).busy[e].plan;
            act == Check(e, plan) || (e in w.busy && !w.busy[e].Preparing? && w.busy[e].plan == plan)
  {
  }

  lemma ApprovedLater(decode: Decoder, worlds: seq<World>, acts: seq<Act>, i: nat)
    requires i > 0
    ensures forall plan {:trigger Approved(decode, worlds, acts, i, plan)} ::
              Approved(decode, worlds, acts, i - 1, plan) ==> Approved(decode, worlds, acts, i, plan)
  {
    hide ApprovedAt;
  }

  lemma CheckApproves(decode: Decoder, worlds: seq<World>, acts: seq<Act>, a: nat)
    requires Run(decode, worlds, acts) && a < |acts| && acts[a].Check? && Inv(worlds[a])
    ensures Approved(decode, worlds, acts, a + 1, acts[a].approved)
  {
    hide Material;
    assert Enabled(decode, worlds[a], acts[a]);
    assert InvEvent(worlds[a], acts[a].event);
    assert ApprovedAt(decode, worlds, acts, a, acts[a].approved);
  }

  lemma ReceiptStep(decode: Decoder, w: World, act: Act, e: EventId)
    requires InvEvent(w, e) && Enabled(decode, w, act) && Dispatched(ReceiptOf(w, e))
    ensures Dispatched(ReceiptOf(Next(decode, w, act), e))
    ensures ReceiptOf(Next(decode, w, act), e).plan == ReceiptOf(w, e).plan
    ensures ReceiptOf(w, e).Verified? ==> ReceiptOf(Next(decode, w, act), e).Verified?
  {
    hide Material, SeenOnce, Publish, TargetFree;
  }

  /** Once `dispatching` is saved, the receipt keeps its plan and never returns to `prepared`; `verified` is final. */
  lemma {:induction false} NeverPreparedAgain(decode: Decoder, worlds: seq<World>, acts: seq<Act>, e: EventId,
                                              i: nat, j: nat)
    requires Run(decode, worlds, acts) && i <= j < |worlds| && Dispatched(ReceiptOf(worlds[i], e))
    ensures Dispatched(ReceiptOf(worlds[j], e)) && ReceiptOf(worlds[j], e).plan == ReceiptOf(worlds[i], e).plan
    ensures ReceiptOf(worlds[i], e).Verified? ==> ReceiptOf(worlds[j], e).Verified?
    decreases j
  {
    hide Enabled, Next, ReceiptOf, InvEvent;
    if i < j {
      NeverPreparedAgain(decode, worlds, acts, e, i, j - 1);
      RunKeepsInv(decode, worlds, acts, j - 1);
      assert InvEvent(worlds[j - 1], e);
      ReceiptStep(decode, worlds[j - 1], acts[j - 1], e);
    }
  }

  // ----- what the remote holds, while nobody else writes to it -----

  /** The step comes from this tool, or closes an issue. */
  predicate Ours(act: Act) { !act.Foreign? }

  /** An open issue that readers find under the fingerprint, in its body or in a comment. */
  predicate OpenUnder(decode: Decoder, remote: Remote, fingerprint: string, i: int) {
    0 <= i < |remote| && remote[i].isOpen && Matches(decode, fingerprint, remote[i])
  }

  /** No two open issues are read under one fingerprint. */
  ghost predicate OneOpen(decode: Decoder, remote: Remote) {
    forall fingerprint, i, j ::
      OpenUnder(decode, remote, fingerprint, i) && OpenUnder(decode, remote, fingerprint, j) ==> i == j
  }

  /** No open issue but perhaps `i` is read under the fingerprint. */
  ghost predicate NoneOpenBut(decode: Decoder, remote: Remote, fingerprint: string, i: int) {
    forall j :: OpenUnder(decode, remote, fingerprint, j) ==> j == i
  }

  /** What readers take a plan's body for belongs to no other open issue; a comment on a closed one does not count. */
  ghost predicate Placed(decode: Decoder, remote: Remote, plan: Plan) {
    var found := Extract(decode, IssueBody(plan.evidence));
    match plan.action
    case Create => found.Some? ==> NoneOpenBut(decode, remote, found.value, |remote|)
    case Comment(i) =>
      found.Some? && i < |remote| && remote[i].isOpen ==> NoneOpenBut(decode, remote, found.value, i)
    case Noop(_) => true
  }

  /** The plan's body is read under a foreign fingerprint that another open issue is read under. */
  ghost predicate Misdirected(decode: Decoder, remote: Remote, plan: Plan) {
    var found, target := Extract(decode, IssueBody(plan.evidence)), Target(remote, plan);
    && !plan.action.Noop? && found.Some? && found.value != plan.evidence.fingerprint
    && exists j :: j != target && OpenUnder(decode, remote, found.value, j)
  }

  /** The number of the issue a plan adds to or writes to. */
  function Target(remote: Remote, plan: Plan): nat {
    match plan.action
    case Create => |remote|
    case Comment(i) => i
    case Noop(i) => i
  }

  /** Issues are added, commented and closed, nothing else. */
  ghost predicate Grows(remote: Remote, later: Remote) {
    && |remote| <= |later|
    && forall i :: 0 <= i < |remote| ==>
         && later[i].body == remote[i].body && (later[i].isOpen ==> remote[i].isOpen)
         && forall c :: c in remote[i].comments ==> c in later[i].comments
  }

  /** Issues are closed, nothing else. */
  ghost predicate Closes(remote: Remote, later: Remote) {
    && |remote| == |later|
    && forall i :: 0 <= i < |remote| ==>
         && later[i].body == remote[i].body && later[i].comments == remote[i].comments
         && (later[i].isOpen ==> remote[i].isOpen)
  }

  /** The plan's effect is on the remote. */
  ghost predicate Published(remote: Remote, plan: Plan) {
    match plan.action
    case Create => exists i :: 0 <= i < |remote| && remote[i].body == IssueBody(plan.evidence)
    case Comment(i) => i < |remote| && IssueBody(plan.evidence) in remote[i].comments
    case Noop(i) => i < |remote|
  }

  /** A comment's issue, or the issue that has it all already, is there. */
  predicate TargetExists(remote: Remote, plan: Plan) { plan.action.Create? || Target(remote, plan) < |remote| }

  /** What the remote holds for an event: a process about to call has a target, and what is verified is there. */
  ghost predicate InvHolder(w: World, e: EventId) {
    && (e in w.busy && (w.busy[e].Checked? || w.busy[e].Saved?) ==>
          TargetExists(RemoteOf(w, w.busy[e].plan.target), w.busy[e].plan))
    && (e in w.busy && w.busy[e].Called? && w.busy[e].landed ==>
          Published(RemoteOf(w, w.busy[e].plan.target), w.busy[e].plan))
    && (ReceiptOf(w, e).Verified? ==> Published(RemoteOf(w, ReceiptOf(w, e).plan.target), ReceiptOf(w, e).plan))
    && (ReceiptOf(w, e).Dispatching? || ReceiptOf(w, e).Unknown? ==> !ReceiptOf(w, e).plan.action.Noop?)
  }

  ghost predicate InvRemote(w: World) { forall e {:trigger InvHolder(w, e)} :: InvHolder(w, e) }

  /** No two processes past preparation hold one target. */
  ghost predicate Alone(w: World) {
    forall d, e :: d in w.busy && e in w.busy && d != e && !w.busy[d].Preparing? && !w.busy[e].Preparing?
      ==> w.busy[d].plan.target != w.busy[e].plan.target
  }

  /** Whoever is about to call has found the right place, and target locks keep it right. */
  ghost predicate InvPlaced(decode: Decoder, w: World) {
    && Alone(w)
    && forall e {:trigger w.busy[e]} :: e in w.busy && (w.busy[e].Checked? || w.busy[e].Saved?) ==>
         Placed(decode, RemoteOf(w, w.busy[e].plan.target), w.busy[e].plan)
  }

  /** What a publication has to satisfy when it is checked: its body is not read under a foreign fingerprint that
      belongs to another open issue, and a creation is read back as its own. */
  ghost predicate Safe(decode: Decoder, w: World, act: Act) {
    act.Check? ==>
      && !Misdirected(decode, RemoteOf(w, act.approved.target), act.approved)
      && (act.approved.action.Create? ==> ReadAsOwn(decode, act.approved))
  }

  predicate ReadAsOwn(decode: Decoder, plan: Plan) {
    Extract(decode, IssueBody(plan.evidence)) == Some(plan.evidence.fingerprint)
  }

  lemma DecisionWarranted(decode: Decoder, remote: Remote, plan: Plan)
    requires Decide(decode, remote, plan.evidence) == Some(plan.action)
    ensures match plan.action
            case Create => NoneOpenBut(decode, remote, plan.evidence.fingerprint, |remote|)
            case Comment(i) =>
              && OpenUnder(decode, remote, plan.evidence.fingerprint, i)
              && NoneOpenBut(decode, remote, plan.evidence.fingerprint, i)
            case Noop(i) => i < |remote|
  {
    hide Latest, Extract, LastHandoff, IssueBody, Matches;
    var e := plan.evidence;
    var matching := (issue: Issue) => Matches(decode, e.fingerprint, issue);
    var active := Numbers(remote, (issue: Issue) => matching(issue) && issue.isOpen);
    var repeated := (issue: Issue) => matching(issue) && Latest(decode, e.fingerprint, issue) == IssueBody(e);
    var same := Numbers(remote, repeated);
    assert active != [] ==> active[0] in active;
    assert same != [] ==> same[0] in same;
    forall j | OpenUnder(decode, remote, e.fingerprint, j)
      ensures |active| == 1 ==> j == active[0]
      ensures active != []
    {
      assert j in active;
    }
  }

  /** No open issue is read under the request's fingerprint, and none ends with its very text. */
  ghost predicate NothingYet(decode: Decoder, remote: Remote, e: Evidence) {
    forall i :: 0 <= i < |remote| && Matches(decode, e.fingerprint, remote[i]) ==>
      !remote[i].isOpen && !LastWord(decode, e.fingerprint, remote[i], IssueBody(e))
  }

  /** The decision once both lists are made. */
  function Decided(decode: Decoder, remote: Remote, e: Evidence, active: seq<nat>, same: seq<nat>): Option<Action>
    requires forall i :: i in active ==> i < |remote|
  {
    if |active| > 1 then None
    else if active != [] then
      assert active[0] in active;
      Some(if Latest(decode, e.fingerprint, remote[active[0]]) == IssueBody(e) then Noop(active[0])
           else Comment(active[0]))
    else if same != [] then Some(Noop(same[0]))
    else Some(Create)
  }

  /** The issue is read under the request's fingerprint, and its last word there is the request's very text. */
  ghost predicate Settled(decode: Decoder, remote: Remote, e: Evidence, i: int) {
    && 0 <= i < |remote| && Matches(decode, e.fingerprint, remote[i])
    && LastWord(decode, e.fingerprint, remote[i], IssueBody(e))
  }

  /** The two lists the decision is made of. */
  lemma DecisionLists(decode: Decoder, remote: Remote, e: Evidence) returns (active: seq<nat>, same: seq<nat>)
    requires |remote| <= MAX_ISSUES
    ensures Ascending(active) && forall i :: i in active ==> i < |remote|
    ensures forall i :: i in active <==> OpenUnder(decode, remote, e.fingerprint, i)
    ensures Ascending(same) && forall i :: i in same <==> Settled(decode, remote, e, i)
    ensures Decide(decode, remote, e) == Decided(decode, remote, e, active, same)
  {
    hide Latest, Extract, LastHandoff, IssueBody, Matches, Numbers, LastWord;
    var matching := (issue: Issue) => Matches(decode, e.fingerprint, issue);
    var opens := (issue: Issue) => matching(issue) && issue.isOpen;
    var repeated := (issue: Issue) => matching(issue) && Latest(decode, e.fingerprint, issue) == IssueBody(e);
    active, same := Numbers(remote, opens), Numbers(remote, repeated);
    NumbersAscend(remote, opens);
    NumbersAscend(remote, repeated);
    forall i | 0 <= i < |remote|
      ensures repeated(remote[i]) <==> Settled(decode, remote, e, i)
    {
      LatestIsLastWord(decode, e.fingerprint, remote[i], IssueBody(e));
    }
  }

  /** The duplicate decision by what is open under the fingerprint and what was last said there. */
  lemma DecisionCases(decode: Decoder, remote: Remote, e: Evidence)
    ensures |remote| > MAX_ISSUES ==> Decide(decode, remote, e) == None
    ensures |remote| <= MAX_ISSUES ==> (Decide(decode, remote, e) == Some(Create) <==> NothingYet(decode, remote, e))
    ensures |remote| <= MAX_ISSUES ==>
              forall i ::
                OpenUnder(decode, remote, e.fingerprint, i) && NoneOpenBut(decode, remote, e.fingerprint, i) ==>
                  Decide(decode, remote, e) == Some(if Settled(decode, remote, e, i) then Noop(i) else Comment(i))
    ensures |remote| <= MAX_ISSUES && (forall j :: !OpenUnder(decode, remote, e.fingerprint, j)) ==>
              forall i :: Settled(decode, remote, e, i) && (forall j :: Settled(decode, remote, e, j) ==> i <= j) ==>
                Decide(decode, remote, e) == Some(Noop(i))
    ensures (exists i, j :: i != j && OpenUnder(decode, remote, e.fingerprint, i)
                            && OpenUnder(decode, remote, e.fingerprint, j)) ==>
              Decide(decode, remote, e) == None
  {
    if |remote| <= MAX_ISSUES {
      hide Latest, Extract, LastHandoff, IssueBody, Matches, Decide, LastWord;
      var active, same := DecisionLists(decode, remote, e);
      assert NothingYet(decode, remote, e) <==> active == [] && same == [] by {
        assert active != [] ==> active[0] in active;
        assert same != [] ==> same[0] in same;
      }
      DecidedCases(decode, remote, e, active, same);
    }
  }

  lemma DecidedCases(decode: Decoder, remote: Remote, e: Evidence, active: seq<nat>, same: seq<nat>)
    requires Ascending(active) && forall i :: i in active ==> i < |remote|
    requires forall i :: i in active <==> OpenUnder(decode, remote, e.fingerprint, i)
    requires Ascending(same) && forall i :: i in same <==> Settled(decode, remote, e, i)
    requires Decide(decode, remote, e) == Decided(decode, remote, e, active, same)
    ensures forall i :: OpenUnder(decode, remote, e.fingerprint, i) && NoneOpenBut(decode, remote, e.fingerprint, i) ==>
              Decide(decode, remote, e) == Some(if Settled(decode, remote, e, i) then Noop(i) else Comment(i))
    ensures (forall j :: !OpenUnder(decode, remote, e.fingerprint, j)) ==>
              forall i :: Settled(decode, remote, e, i) && (forall j :: Settled(decode, remote, e, j) ==> i <= j) ==>
                Decide(decode, remote, e) == Some(Noop(i))
  {
    hide Latest, Extract, LastHandoff, IssueBody, Decide, LastWord, Ascending;
    forall i | OpenUnder(decode, remote, e.fingerprint, i) && NoneOpenBut(decode, remote, e.fingerprint, i)
      ensures Decide(decode, remote, e) == Some(if Settled(decode, remote, e, i) then Noop(i) else Comment(i))
    {
      OnlyOne(active, i);
      LatestIsLastWord(decode, e.fingerprint, remote[i], IssueBody(e));
    }
    if forall j :: !OpenUnder(decode, remote, e.fingerprint, j) {
      SomeListed(active);
      forall i | Settled(decode, remote, e, i) && (forall j :: Settled(decode, remote, e, j) ==> i <= j)
        ensures Decide(decode, remote, e) == Some(Noop(i))
      {
        hide Settled;
        LeastFirst(same, i);
      }
    }
  }

  lemma SomeListed(numbers: seq<nat>)
    ensures numbers != [] ==> exists j :: j in numbers
  {
    assert numbers != [] ==> numbers[0] in numbers;
  }

  lemma LeastFirst(numbers: seq<nat>, i: nat)
    requires Ascending(numbers) && i in numbers && forall j :: j in numbers ==> i <= j
    ensures numbers[0] == i
  {
    var k :| 0 <= k < |numbers| && numbers[k] == i;
    assert numbers[0] in numbers;
  }

  lemma OnlyOne(numbers: seq<nat>, i: nat)
    requires Ascending(numbers) && i in numbers && forall j :: j in numbers ==> j == i
    ensures numbers == [i]
  {
    if |numbers| > 1 {
      OneValue(numbers, i, 0);
      OneValue(numbers, i, 1);
    }
  }

  lemma OneValue(numbers: seq<nat>, i: nat, k: nat)
    requires k < |numbers| && forall j :: j in numbers ==> j == i
    ensures numbers[k] == i
  {
    assert numbers[k] in numbers;
  }

  /** A publication the duplicate decision asks for is misplaced only where it is misdirected. */
  lemma PlacedUnlessMisdirected(decode: Decoder, remote: Remote, plan: Plan)
    requires Decide(decode, remote, plan.evidence) == Some(plan.action)
    ensures Placed(decode, remote, plan) <==> !Misdirected(decode, remote, plan)
  {
    hide Decide, Extract, IssueBody, Matches;
    DecisionWarranted(decode, remote, plan);
  }

  /** One more comment is found under what its first block names. */
  lemma CommentMatches(decode: Decoder, fingerprint: string, issue: Issue, body: string)
    ensures Matches(decode, fingerprint, issue.(comments := issue.comments + [body]))
            <==> Matches(decode, fingerprint, issue) || Extract(decode, body) == Some(fingerprint)
  {
    hide Extract;
    assert (issue.comments + [body])[..|issue.comments|] == issue.comments;
  }

  /** What is open under a fingerprint after a publication. */
  lemma OpenAfter(decode: Decoder, remote: Remote, plan: Plan, fingerprint: string, j: int)
    ensures OpenUnder(decode, Publish(remote, plan), fingerprint, j) <==>
              || OpenUnder(decode, remote, fingerprint, j)
              || (&& j == Target(remote, plan) && !plan.action.Noop?
                  && Extract(decode, IssueBody(plan.evidence)) == Some(fingerprint)
                  && (plan.action.Comment? ==> j < |remote| && remote[j].isOpen))
  {
    hide Extract, IssueBody, LastHandoff;
    match plan.action
    case Create => NoComments(decode, fingerprint);
    case Comment(i) =>
      if i < |remote| {
        hide Matches;
        CommentMatches(decode, fingerprint, remote[i], IssueBody(plan.evidence));
      }
    case Noop(_) =>
  }

  lemma NoComments(decode: Decoder, fingerprint: string)
    ensures LastHandoff(decode, [], fingerprint).None?
  {
  }

  /** A publication keeps open issues apart exactly when it is well placed. */
  lemma PublishKeepsOne(decode: Decoder, remote: Remote, plan: Plan)
    requires OneOpen(decode, remote)
    ensures OneOpen(decode, Publish(remote, plan)) <==> Placed(decode, remote, plan)
  {
    hide OpenUnder, Extract, IssueBody, Publish;
    var later := Publish(remote, plan);
    var found, target := Extract(decode, IssueBody(plan.evidence)), Target(remote, plan);
    forall fingerprint, j
      ensures OpenUnder(decode, later, fingerprint, j) <==>
                || OpenUnder(decode, remote, fingerprint, j)
                || (&& j == target && !plan.action.Noop? && found == Some(fingerprint)
                    && (plan.action.Comment? ==> j < |remote| && remote[j].isOpen))
    {
      OpenAfter(decode, remote, plan, fingerprint, j);
    }
    if OneOpen(decode, later) && !plan.action.Noop? && found.Some? {
      forall j | && OpenUnder(decode, remote, found.value, j)
                 && (plan.action.Comment? ==> target < |remote| && remote[target].isOpen)
        ensures j == target
      {
        assert OpenUnder(decode, later, found.value, target);
      }
    }
  }

  /**
   * The exact condition for what the duplicate decision asks for: the open
   * issues stay apart unless the body's first block names a foreign fingerprint
   * that another open issue is read under.
   */
  lemma DecidedKeepsOne(decode: Decoder, remote: Remote, plan: Plan)
    requires OneOpen(decode, remote) && Decide(decode, remote, plan.evidence) == Some(plan.action)
    ensures OneOpen(decode, Publish(remote, plan)) <==> !Misdirected(decode, remote, plan)
  {
    hide OneOpen, Decide, Publish, Placed, Misdirected;
    PublishKeepsOne(decode, remote, plan);
    PlacedUnlessMisdirected(decode, remote, plan);
  }

  lemma PublishGrows(remote: Remote, plan: Plan)
    ensures Grows(remote, Publish(remote, plan))
    ensures (plan.action.Comment? ==> plan.action.issue < |remote|) && !plan.action.Noop? ==>
              Published(Publish(remote, plan), plan)
  {
    hide IssueBody;
    var later := Publish(remote, plan);
    if plan.action.Create? {
      assert later[|remote|].body == IssueBody(plan.evidence);
    }
  }

  lemma GrowthKeeps(remote: Remote, later: Remote, plan: Plan)
    requires Grows(remote, later) && Published(remote, plan)
    ensures Published(later, plan)
  {
    hide IssueBody;
    if plan.action.Create? {
      var i :| 0 <= i < |remote| && remote[i].body == IssueBody(plan.evidence);
      assert later[i].body == IssueBody(plan.evidence);
    }
  }

  lemma ClosingKeepsPlace(decode: Decoder, remote: Remote, later: Remote, plan: Plan)
    requires Closes(remote, later) && Placed(decode, remote, plan)
    ensures Placed(decode, later, plan)
  {
    hide Extract, IssueBody, LastHandoff;
    assert forall fingerprint, j ::
        OpenUnder(decode, later, fingerprint, j) ==> OpenUnder(decode, remote, fingerprint, j);
  }

  lemma ClosingKeepsOne(decode: Decoder, remote: Remote, later: Remote)
    requires Closes(remote, later) && OneOpen(decode, remote)
    ensures OneOpen(decode, later)
  {
    hide Extract, IssueBody, LastHandoff;
    assert forall fingerprint, j ::
        OpenUnder(decode, later, fingerprint, j) ==> OpenUnder(decode, remote, fingerprint, j);
  }

  lemma SeenOnceIsPublished(remote: Remote, plan: Plan)
    requires SeenOnce(remote, plan) && !plan.action.Noop?
    ensures Published(remote, plan)
  {
    hide IssueBody;
    if plan.action.Create? {
      var found := Numbers(remote, (issue: Issue) => issue.body == IssueBody(plan.evidence));
      assert found[0] in found;
    } else {
      assert IssueBody(plan.evidence) in multiset(remote[plan.action.issue].comments);
    }
  }

  /** The text stands at this place and nowhere else. */
  ghost predicate OnlyAt(texts: seq<string>, text: string, k: int) {
    0 <= k < |texts| && texts[k] == text && forall j :: 0 <= j < |texts| && texts[j] == text ==> j == k
  }

  function Bodies(remote: Remote): (r: seq<string>)
    ensures |r| == |remote| && forall i :: 0 <= i < |remote| ==> r[i] == remote[i].body
  {
    seq(|remote|, i requires 0 <= i < |remote| => remote[i].body)
  }

  /** One issue body, or one comment of the planned issue, is the planned text; a plan to do nothing is always seen. */
  ghost predicate CarriedOnce(remote: Remote, plan: Plan) {
    match plan.action
    case Create => exists i :: OnlyAt(Bodies(remote), IssueBody(plan.evidence), i)
    case Comment(i) => i < |remote| && exists k :: OnlyAt(remote[i].comments, IssueBody(plan.evidence), k)
    case Noop(_) => true
  }

  lemma {:induction false} CountedOnce(texts: seq<string>, text: string)
    ensures text !in texts ==> multiset(texts)[text] == 0
    ensures multiset(texts)[text] == 1 <==> exists k :: OnlyAt(texts, text, k)
  {
    if texts != [] {
      var n := |texts| - 1;
      var front := texts[..n];
      CountedOnce(front, text);
      assert texts == front + [texts[n]];
      if texts[n] == text {
        assert text !in front ==> OnlyAt(texts, text, n);
        assert forall k :: OnlyAt(texts, text, k) ==> k == n;
        assert text in front ==> multiset(front)[text] > 0;
      } else {
        assert forall k :: OnlyAt(texts, text, k) <==> OnlyAt(front, text, k);
      }
    }
  }

  /** A retry settles exactly where the planned text is there once. */
  lemma SeenOnceMeans(remote: Remote, plan: Plan)
    ensures SeenOnce(remote, plan) <==> CarriedOnce(remote, plan)
  {
    hide IssueBody;
    match plan.action
    case Create =>
      var text := IssueBody(plan.evidence);
      var kept := (issue: Issue) => issue.body == text;
      var found := Numbers(remote, kept);
      NumbersAscend(remote, kept);
      assert found == Numbers(remote, (issue: Issue) => issue.body == IssueBody(plan.evidence));
      if |found| == 1 {
        OnlyListed(found);
        assert found[0] in found;
        assert forall j :: 0 <= j < |remote| && remote[j].body == text ==> j in found;
        assert OnlyAt(Bodies(remote), text, found[0]);
      }
      if i :| OnlyAt(Bodies(remote), text, i) {
        assert i in found;
        OnlyOne(found, i);
      }
    case Comment(i) =>
      if i < |remote| {
        CountedOnce(remote[i].comments, IssueBody(plan.evidence));
      }
    case Noop(_) =>
  }

  lemma OnlyListed(numbers: seq<nat>)
    requires |numbers| == 1
    ensures forall j :: j in numbers <==> j == numbers[0]
  {
  }

  /** The publication a step makes, if its call takes effect. */
  predicate Publishes(w: World, act: Act, t: TargetId) {
    act.Call? && act.landed && act.event in w.busy && w.busy[act.event].plan.target == t
  }

  /** Without foreign writers a target's issues change by one publication or by a closing. */
  lemma RemoteStep(decode: Decoder, w: World, act: Act, t: TargetId)
    requires Enabled(decode, w, act) && Ours(act)
    ensures Publishes(w, act, t) ==>
              RemoteOf(Next(decode, w, act), t) == Publish(RemoteOf(w, t), w.busy[act.event].plan)
    ensures !Publishes(w, act, t) ==> Closes(RemoteOf(w, t), RemoteOf(Next(decode, w, act), t))
    ensures Grows(RemoteOf(w, t), RemoteOf(Next(decode, w, act), t))
  {
    hide Extract, IssueBody, Decide, Material, SeenOnce, Publish;
    if Publishes(w, act, t) {
      PublishGrows(RemoteOf(w, t), w.busy[act.event].plan);
    }
  }

  /** One step keeps a target's open issues apart exactly when what it publishes there is well placed. */
  lemma OneOpenStep(decode: Decoder, w: World, act: Act, t: TargetId)
    requires Enabled(decode, w, act) && Ours(act) && OneOpen(decode, RemoteOf(w, t))
    ensures OneOpen(decode, RemoteOf(Next(decode, w, act), t))
            <==> (Publishes(w, act, t) ==> Placed(decode, RemoteOf(w, t), w.busy[act.event].plan))
  {
    RemoteStep(decode, w, act, t);
    hide OneOpen, Placed, Publish, Next, Enabled, RemoteOf, Ours;
    if Publishes(w, act, t) {
      PublishKeepsOne(decode, RemoteOf(w, t), w.busy[act.event].plan);
    } else {
      ClosingKeepsOne(decode, RemoteOf(w, t), RemoteOf(Next(decode, w, act), t));
    }
  }

  lemma AloneStep(decode: Decoder, w: World, act: Act)
    requires Enabled(decode, w, act) && Alone(w)
    ensures Alone(Next(decode, w, act))
  {
    hide Material, SeenOnce, Publish;
  }

  /** The step is one of the event's own process. */
  predicate Touches(act: Act, e: EventId) { !act.Close? && !act.Foreign? && act.event == e }

  lemma OthersKeep(decode: Decoder, w: World, act: Act, e: EventId)
    requires Enabled(decode, w, act) && !Touches(act, e)
    ensures var w' := Next(decode, w, act);
            && (e in w'.busy <==> e in w.busy) && (e in w.busy ==> w'.busy[e] == w.busy[e])
            && (e in w'.plans <==> e in w.plans) && (e in w.plans ==> w'.plans[e] == w.plans[e])
            && (e in w'.evidence <==> e in w.evidence) && (e in w.evidence ==> w'.evidence[e] == w.evidence[e])
            && ReceiptOf(w', e) == ReceiptOf(w, e)
  {
    hide Material, SeenOnce, Publish, TargetFree, Exact;
  }

  lemma HolderStep(decode: Decoder, w: World, act: Act, e: EventId)
    requires Enabled(decode, w, act) && Ours(act) && Inv(w) && InvRemote(w)
    ensures InvHolder(Next(decode, w, act), e)
  {
    hide Enabled, Next, RemoteOf, ReceiptOf, TargetExists, Published, Ours;
    assert InvEvent(w, e) && InvHolder(w, e);
    if Touches(act, e) {
      OwnStep(decode, w, act, e);
    } else {
      OtherStep(decode, w, act, e);
    }
  }

  lemma OtherStep(decode: Decoder, w: World, act: Act, e: EventId)
    requires Enabled(decode, w, act) && Ours(act) && !Touches(act, e) && InvHolder(w, e)
    ensures InvHolder(Next(decode, w, act), e)
  {
    OthersKeep(decode, w, act, e);
    var w' := Next(decode, w, act);
    hide Next, Enabled, RemoteOf, Published, ReceiptOf, Publishes;
    if e in w.busy {
      var plan := w.busy[e].plan;
      RemoteStep(decode, w, act, plan.target);
      if Published(RemoteOf(w, plan.target), plan) {
        GrowthKeeps(RemoteOf(w, plan.target), RemoteOf(w', plan.target), plan);
      }
    }
    if ReceiptOf(w, e).Verified? {
      var plan := ReceiptOf(w, e).plan;
      RemoteStep(decode, w, act, plan.target);
      GrowthKeeps(RemoteOf(w, plan.target), RemoteOf(w', plan.target), plan);
    }
  }

  lemma OwnStep(decode: Decoder, w: World, act: Act, e: EventId)
    requires Enabled(decode, w, act) && Ours(act) && Touches(act, e)
    requires InvEvent(w, e) && InvHolder(w, e)
    ensures InvHolder(Next(decode, w, act), e)
  {
    hide Extract, IssueBody, Published, SeenOnce, Publish, Material, TargetFree, NoCall;
    match act
    case Check(_, approved) => CheckTargets(decode, w, e, approved);
    case Call(_, landed) =>
      var plan := w.busy[e].plan;
      PublishGrows(RemoteOf(w, plan.target), plan);
    case SaveNoop(_) => NoopIsThere(RemoteOf(w, w.busy[e].plan.target), w.busy[e].plan);
    case Reconcile(_, approved, read) =>
      if read && SeenOnce(RemoteOf(w, approved.target), approved) {
        SeenOnceIsPublished(RemoteOf(w, approved.target), approved);
      }
    case _ =>
  }

  lemma CheckDecides(decode: Decoder, w: World, e: EventId, approved: Plan)
    requires Enabled(decode, w, Check(e, approved))
    ensures Decide(decode, RemoteOf(w, approved.target), approved.evidence) == Some(approved.action)
  {
    hide Decide, Extract, IssueBody;
  }

  lemma CheckTargets(decode: Decoder, w: World, e: EventId, approved: Plan)
    requires Enabled(decode, w, Check(e, approved))
    ensures TargetExists(RemoteOf(w, approved.target), approved)
  {
    CheckDecides(decode, w, e, approved);
    hide Decide, Enabled, RemoteOf, Extract, IssueBody, Matches;
    DecisionWarranted(decode, RemoteOf(w, approved.target), approved);
  }

  lemma NoopIsThere(remote: Remote, plan: Plan)
    requires TargetExists(remote, plan) && plan.action.Noop?
    ensures Published(remote, plan)
  {
  }

  lemma InvPlacedStep(decode: Decoder, w: World, act: Act)
    requires Enabled(decode, w, act) && Ours(act) && Safe(decode, w, act) && Inv(w) && InvPlaced(decode, w)
    ensures InvPlaced(decode, Next(decode, w, act))
  {
    var w' := Next(decode, w, act);
    AloneStep(decode, w, act);
    hide Next, Enabled, Inv, RemoteOf, Placed, Publishes, Alone, Safe;
    forall e {:trigger w'.busy[e]} | e in w'.busy && (w'.busy[e].Checked? || w'.busy[e].Saved?)
      ensures Placed(decode, RemoteOf(w', w'.busy[e].plan.target), w'.busy[e].plan)
    {
      PlacedStep(decode, w, act, e);
    }
  }

  lemma PlacedStep(decode: Decoder, w: World, act: Act, e: EventId)
    requires Enabled(decode, w, act) && Ours(act) && Safe(decode, w, act) && InvPlaced(decode, w)
    requires var w' := Next(decode, w, act); e in w'.busy && (w'.busy[e].Checked? || w'.busy[e].Saved?)
    ensures var w' := Next(decode, w, act); Placed(decode, RemoteOf(w', w'.busy[e].plan.target), w'.busy[e].plan)
  {
    var w' := Next(decode, w, act);
    var t := w'.busy[e].plan.target;
    PhaseStep(decode, w, act, e);
    RemoteStep(decode, w, act, t);
    NoOtherPublishes(decode, w, act, e);
    hide Next, RemoteOf, Placed, Publishes, Alone, Misdirected, Decide;
    if act.Check? && act.event == e && act.approved == w'.busy[e].plan {
      CheckDecides(decode, w, e, act.approved);
      PlacedUnlessMisdirected(decode, RemoteOf(w, t), act.approved);
    }
    hide Enabled, Safe;
    ClosingKeepsPlace(decode, RemoteOf(w, t), RemoteOf(w', t), w'.busy[e].plan);
  }

  /** While a process is about to call, nobody else publishes to its target. */
  lemma NoOtherPublishes(decode: Decoder, w: World, act: Act, e: EventId)
    requires Enabled(decode, w, act) && Alone(w)
    requires var w' := Next(decode, w, act); e in w'.busy && (w'.busy[e].Checked? || w'.busy[e].Saved?)
    ensures !Publishes(w, act, Next(decode, w, act).busy[e].plan.target)
    ensures (e in w.busy && !w.busy[e].Preparing?) ==> w.busy[e].Checked? || w.busy[e].Saved?
  {
    hide Material, SeenOnce, Publish;
  }

  // ----- whole runs without foreign writers -----

  /** Only this tool writes, and issues stay closed once closed. */
  ghost predicate OwnRun(decode: Decoder, worlds: seq<World>, acts: seq<Act>) {
    Run(decode, worlds, acts) && AllOurs(acts)
  }

  predicate AllOurs(acts: seq<Act>) { forall i {:trigger acts[i]} :: 0 <= i < |acts| ==> Ours(acts[i]) }

  ghost predicate Apart(decode: Decoder, w: World) {
    forall t {:trigger RemoteOf(w, t)} :: OneOpen(decode, RemoteOf(w, t))
  }

  ghost predicate AlwaysApart(decode: Decoder, worlds: seq<World>) {
    forall i :: 0 <= i < |worlds| ==> Apart(decode, worlds[i])
  }

  /** What the step publishes, if anything, is well placed. */
  ghost predicate PlacedCall(decode: Decoder, w: World, act: Act) {
    act.Call? && act.landed && act.event in w.busy ==>
      Placed(decode, RemoteOf(w, w.busy[act.event].plan.target), w.busy[act.event].plan)
  }

  ghost predicate AlwaysPlaced(decode: Decoder, worlds: seq<World>, acts: seq<Act>)
    requires |worlds| == |acts| + 1
  {
    forall i {:trigger acts[i]} :: 0 <= i < |acts| ==> PlacedCall(decode, worlds[i], acts[i])
  }

  lemma ApartStep(decode: Decoder, w: World, act: Act)
    requires Enabled(decode, w, act) && Ours(act) && Apart(decode, w)
    ensures Apart(decode, Next(decode, w, act)) <==> PlacedCall(decode, w, act)
  {
    var w' := Next(decode, w, act);
    hide Enabled, Next, OneOpen, RemoteOf, Placed, Ours;
    forall t {:trigger RemoteOf(w', t)}
      ensures OneOpen(decode, RemoteOf(w', t))
              <==> (Publishes(w, act, t) ==> Placed(decode, RemoteOf(w, t), w.busy[act.event].plan))
    {
      assert OneOpen(decode, RemoteOf(w, t));
      OneOpenStep(decode, w, act, t);
    }
    if Apart(decode, w') && act.Call? && act.landed && act.event in w.busy {
      assert OneOpen(decode, RemoteOf(w', w.busy[act.event].plan.target));
    }
  }

  lemma {:induction false} PlacedRun(decode: Decoder, worlds: seq<World>, acts: seq<Act>, i: nat)
    requires OwnRun(decode, worlds, acts) && Apart(decode, worlds[0]) && AlwaysPlaced(decode, worlds, acts)
    requires i < |worlds|
    ensures Apart(decode, worlds[i])
  {
    hide Enabled, Next, Apart, PlacedCall, Ours;
    if i > 0 {
      PlacedRun(decode, worlds, acts, i - 1);
      ApartStep(decode, worlds[i - 1], acts[i - 1]);
    }
  }

  /**
   * Over any run without foreign writers, no two open issues are ever read
   * under one fingerprint exactly when every call that took effect was well
   * placed: its body is not read under what another open issue is read under.
   */
  lemma ApartIffPlaced(decode: Decoder, worlds: seq<World>, acts: seq<Act>)
    requires OwnRun(decode, worlds, acts) && Apart(decode, worlds[0])
    ensures AlwaysApart(decode, worlds) <==> AlwaysPlaced(decode, worlds, acts)
  {
    hide Enabled, Next, Apart, PlacedCall, Ours;
    if AlwaysApart(decode, worlds) {
      forall i {:trigger acts[i]} | 0 <= i < |acts|
        ensures PlacedCall(decode, worlds[i], acts[i])
      {
        ApartStep(decode, worlds[i], acts[i]);
      }
    }
    if AlwaysPlaced(decode, worlds, acts) {
      forall i | 0 <= i < |worlds|
        ensures Apart(decode, worlds[i])
      {
        PlacedRun(decode, worlds, acts, i);
      }
    }
  }

  /** Nobody else writes, and every publication was safe when it was checked. */
  ghost predicate OurRun(decode: Decoder, worlds: seq<World>, acts: seq<Act>) {
    && OwnRun(decode, worlds, acts) && Apart(decode, worlds[0])
    && forall i {:trigger acts[i]} :: 0 <= i < |acts| ==> Safe(decode, worlds[i], acts[i])
  }

  lemma {:induction false} SafeRunIsPlaced(decode: Decoder, worlds: seq<World>, acts: seq<Act>, i: nat)
    requires OurRun(decode, worlds, acts) && i < |worlds|
    ensures InvPlaced(decode, worlds[i])
  {
    hide Enabled, Next, Inv, Apart, RemoteOf, Ours, Safe, Placed;
    if i == 0 {
    } else {
      SafeRunIsPlaced(decode, worlds, acts, i - 1);
      RunKeepsInv(decode, worlds, acts, i - 1);
      InvPlacedStep(decode, worlds[i - 1], acts[i - 1]);
    }
  }

  lemma SafeCall(decode: Decoder, w: World, act: Act)
    requires Enabled(decode, w, act) && InvPlaced(decode, w)
    ensures PlacedCall(decode, w, act)
  {
    hide Placed, Material, SeenOnce;
  }

  /** The issue shows what the plan published. */
  predicate Shows(remote: Remote, plan: Plan, i: int) {
    0 <= i < |remote| && remote[i].isOpen && remote[i].body == IssueBody(plan.evidence)
  }

  predicate CreatedAs(w: World, t: TargetId, plan: Plan, i: int) {
    plan in w.calls && plan.action.Create? && Shows(RemoteOf(w, t), plan, i)
  }

  /** At most one open issue shows what was created for any fingerprint. */
  ghost predicate OnePerFingerprint(w: World, t: TargetId) {
    forall a, b, i, j :: CreatedAs(w, t, a, i) && CreatedAs(w, t, b, j) ==>
      (a.evidence.fingerprint == b.evidence.fingerprint ==> i == j)
  }

  /**
   * No run of any number of events leaves two open issues that are read under
   * one fingerprint, in a body or a comment, nor two that were created for one.
   */
  lemma NoDuplicateIssues(decode: Decoder, worlds: seq<World>, acts: seq<Act>, i: nat, t: TargetId)
    requires OurRun(decode, worlds, acts) && i < |worlds|
    ensures OneOpen(decode, RemoteOf(worlds[i], t)) && OnePerFingerprint(worlds[i], t)
  {
    hide Enabled, Next, OneOpen, RemoteOf, InvPlaced, PlacedCall, Safe, Ours, Approved;
    forall k {:trigger acts[k]} | 0 <= k < |acts|
      ensures PlacedCall(decode, worlds[k], acts[k])
    {
      SafeRunIsPlaced(decode, worlds, acts, k);
      SafeCall(decode, worlds[k], acts[k]);
    }
    PlacedRun(decode, worlds, acts, i);
    assert OneOpen(decode, RemoteOf(worlds[i], t));
    CallsAreApproved(decode, worlds, acts, i);
    forall a | a in worlds[i].calls && a.action.Create?
      ensures ReadAsOwn(decode, a)
    {
      var k :| 0 <= k < |worlds[i].calls| && worlds[i].calls[k] == a;
      ApprovedReads(decode, worlds, acts, i, worlds[i].calls[k]);
    }
    ReadMeansOne(decode, worlds[i], t);
  }

  lemma ApprovedReads(decode: Decoder, worlds: seq<World>, acts: seq<Act>, i: nat, plan: Plan)
    requires OurRun(decode, worlds, acts) && Approved(decode, worlds, acts, i, plan) && plan.action.Create?
    ensures ReadAsOwn(decode, plan)
  {
    hide Run, Ours, Apart, Misdirected, ReadAsOwn, Exact, Material;
    var a: nat :| a < i && ApprovedAt(decode, worlds, acts, a, plan);
    assert Safe(decode, worlds[a], acts[a]);
  }

  lemma ReadMeansOne(decode: Decoder, w: World, t: TargetId)
    requires OneOpen(decode, RemoteOf(w, t))
    requires forall a :: a in w.calls && a.action.Create? ==> ReadAsOwn(decode, a)
    ensures OnePerFingerprint(w, t)
  {
    hide RemoteOf, Extract, IssueBody, LastHandoff;
    forall a, i | CreatedAs(w, t, a, i)
      ensures OpenUnder(decode, RemoteOf(w, t), a.evidence.fingerprint, i)
    {
    }
  }

  lemma {:induction false} RunKeepsRemote(decode: Decoder, worlds: seq<World>, acts: seq<Act>, i: nat)
    requires OwnRun(decode, worlds, acts) && i < |worlds|
    ensures InvRemote(worlds[i])
  {
    hide Enabled, Next, Inv, RemoteOf, Ours, InvHolder;
    if i == 0 {
      InitialRemote(worlds[0]);
    } else {
      RunKeepsRemote(decode, worlds, acts, i - 1);
      RunKeepsInv(decode, worlds, acts, i - 1);
      forall e {:trigger InvHolder(worlds[i], e)}
        ensures InvHolder(worlds[i], e)
      {
        HolderStep(decode, worlds[i - 1], acts[i - 1], e);
      }
    }
  }

  lemma InitialRemote(w: World)
    requires Initial(w)
    ensures InvRemote(w)
  {
  }

  /** A receipt says `verified` only when the planned issue or comment is on the remote. */
  lemma VerifiedIsPublished(decode: Decoder, worlds: seq<World>, acts: seq<Act>, i: nat, e: EventId)
    requires OwnRun(decode, worlds, acts) && i < |worlds| && ReceiptOf(worlds[i], e).Verified?
    ensures var plan := ReceiptOf(worlds[i], e).plan;
            plan.event == e && Published(RemoteOf(worlds[i], plan.target), plan)
  {
    hide RemoteOf, Published, TargetExists, Enabled, Next;
    RunKeepsRemote(decode, worlds, acts, i);
    RunKeepsInv(decode, worlds, acts, i);
    assert InvHolder(worlds[i], e) && InvEvent(worlds[i], e);
  }

  // ----- after a publication -----

  /** A published text is the last word on the issue it went to. */
  lemma PublishedIsLastWord(decode: Decoder, remote: Remote, plan: Plan)
    requires ReadAsOwn(decode, plan) && !plan.action.Noop? && TargetExists(remote, plan)
    ensures Settled(decode, Publish(remote, plan), plan.evidence, Target(remote, plan))
  {
    hide Extract, IssueBody;
    var later, i, f := Publish(remote, plan), Target(remote, plan), plan.evidence.fingerprint;
    MatchesMeans(decode, f, later[i]);
    hide Matches;
    if plan.action.Comment? {
      assert LastOne(decode, f, later[i].comments, |remote[i].comments|);
    }
  }

  /**
   * Deciding again right after a publication that is read as its own asks for
   * nothing more, on the very issue just written: no text is published twice.
   */
  lemma DecidedOnce(decode: Decoder, remote: Remote, plan: Plan)
    requires Decide(decode, remote, plan.evidence) == Some(plan.action) && !plan.action.Noop?
    requires ReadAsOwn(decode, plan) && |Publish(remote, plan)| <= MAX_ISSUES
    ensures Decide(decode, Publish(remote, plan), plan.evidence) == Some(Noop(Target(remote, plan)))
  {
    hide Extract, IssueBody, Decide, Matches, LastWord, Publish, LastHandoff;
    var later, i, f := Publish(remote, plan), Target(remote, plan), plan.evidence.fingerprint;
    DecisionWarranted(decode, remote, plan);
    PublishedIsLastWord(decode, remote, plan);
    forall j
      ensures OpenUnder(decode, later, f, j) <==> j == i
    {
      OpenAfter(decode, remote, plan, f, j);
    }
    DecisionCases(decode, later, plan.evidence);
  }

  /** A created issue is open and has the plan's title, labels and body and no comment; a comment is appended with the
      plan's body; everything else stays. */
  lemma PublishExact(remote: Remote, plan: Plan)
    ensures var later := Publish(remote, plan);
            && (plan.action.Create? ==>
                  && |later| == |remote| + 1 && later[..|remote|] == remote
                  && var issue := later[|remote|];
                     && issue.title == plan.evidence.title && issue.labels == plan.evidence.labels
                     && issue.body == IssueBody(plan.evidence) && issue.isOpen && issue.comments == [])
            && (!plan.action.Create? ==> |later| == |remote|)
            && (forall j :: 0 <= j < |remote| && !(plan.action.Comment? && plan.action.issue == j) ==>
                later[j] == remote[j])
            && (plan.action.Comment? && plan.action.issue < |remote| ==>
                  var i := plan.action.issue;
                  && later[i].comments == remote[i].comments + [IssueBody(plan.evidence)]
                  && later[i] == remote[i].(comments := later[i].comments))
  {
    hide IssueBody;
  }

  // ----- when a duplicate does appear -----

  /**
   * After an issue was created for one event, a second event with the same
   * fingerprint is told to create another one exactly when the first draft
   * quotes a block that names something else.
   */
  lemma DuplicateIffQuoted(decode: Decoder, remote: Remote, first: Evidence, second: Evidence)
    requires Encoded(decode, first) && first.fingerprint == second.fingerprint
    requires Decide(decode, remote, second) == Some(Create) && |remote| < MAX_ISSUES
    ensures var later := Publish(remote, Plan(0, first, 0, Create));
            Decide(decode, later, second) == Some(Create) <==> !Faithful(decode, first)
  {
    hide Extract, IssueBody, Encoded, Faithful, Decide, Latest;
    ReadBackOwn(decode, first);
    NoComments(decode, second.fingerprint);
    var later, n := Publish(remote, Plan(0, first, 0, Create)), |remote|;
    DecisionCases(decode, remote, second);
    DecisionCases(decode, later, second);
    assert Matches(decode, second.fingerprint, later[n]) <==> Faithful(decode, first);
    assert forall i :: 0 <= i < n ==> later[i] == remote[i];
  }

  /** A run that ends with nobody at work on the event, nothing submitted for it, and the publication warranted. */
  ghost predicate ReadyToPublish(decode: Decoder, worlds: seq<World>, acts: seq<Act>, plan: Plan) {
    && Run(decode, worlds, acts)
    && var w := worlds[|worlds| - 1];
       && w.busy == map[] && ReceiptOf(w, plan.event) == Absent && !plan.action.Noop?
       && Material(decode, w, plan.event, plan.target) == Some(plan)
  }

  /** The world once the plan was prepared, approved, published and acknowledged. */
  function Carried(w: World, plan: Plan): World {
    w.(plans := w.plans[plan.event := plan], receipts := w.receipts[plan.event := Verified(plan)],
       remotes := w.remotes[plan.target := Publish(RemoteOf(w, plan.target), plan)], calls := w.calls + [plan])
  }

  /** One step more. */
  lemma Extend(decode: Decoder, worlds: seq<World>, acts: seq<Act>, act: Act) returns (w: World)
    requires Run(decode, worlds, acts) && Enabled(decode, worlds[|worlds| - 1], act)
    ensures w == Next(decode, worlds[|worlds| - 1], act) && Run(decode, worlds + [w], acts + [act])
  {
    hide Enabled, Next;
    w := Next(decode, worlds[|worlds| - 1], act);
    var more, moves := worlds + [w], acts + [act];
    forall i {:trigger moves[i]} | 0 <= i < |moves|
      ensures Enabled(decode, more[i], moves[i]) && more[i + 1] == Next(decode, more[i], moves[i])
    {
      if i < |acts| {
        assert moves[i] == acts[i];
      }
    }
  }

  /** Prepare, approve and submit, all acknowledged: a run of six more steps. */
  lemma PublishFresh(decode: Decoder, worlds: seq<World>, acts: seq<Act>, plan: Plan)
    returns (more: seq<World>, moves: seq<Act>)
    requires ReadyToPublish(decode, worlds, acts, plan)
    ensures Run(decode, more, moves) && worlds <= more && more[|more| - 1] == Carried(worlds[|worlds| - 1], plan)
    ensures moves == acts + [SavePlan(plan.event, plan), SavePrepared(plan.event), Check(plan.event, plan),
                             SaveDispatching(plan.event), Call(plan.event, true), Acknowledge(plan.event, true)]
    ensures AllOurs(acts) ==> AllOurs(moves)
  {
    var e, w := plan.event, worlds[|worlds| - 1];
    MaterialNamed(decode, w, plan);
    PrepareSteps(decode, w, plan);
    hide Run, Material, Publish, Carried, Enabled, Next, Ours;
    var w1 := Extend(decode, worlds, acts, SavePlan(e, plan));
    var w2 := Extend(decode, worlds + [w1], acts + [SavePlan(e, plan)], SavePrepared(e));
    more, moves := worlds + [w1] + [w2], acts + [SavePlan(e, plan)] + [SavePrepared(e)];
    SameMaterial(decode, w, w2, plan);
    more, moves := PublishOne(decode, more, moves, plan);
    CarriedAlike(w, w2, plan);
    StillOurs(acts, [SavePlan(e, plan), SavePrepared(e), Check(e, plan), SaveDispatching(e), Call(e, true),
                     Acknowledge(e, true)]);
  }

  lemma StillOurs(acts: seq<Act>, more: seq<Act>)
    ensures AllOurs(acts) && AllOurs(more) ==> AllOurs(acts + more)
  {
    hide Ours;
  }

  lemma PrepareSteps(decode: Decoder, w: World, plan: Plan)
    requires w.busy == map[] && ReceiptOf(w, plan.event) == Absent
    ensures Enabled(decode, w, SavePlan(plan.event, plan))
    ensures var w1 := Next(decode, w, SavePlan(plan.event, plan));
            && w1 == w.(plans := w.plans[plan.event := plan], busy := map[plan.event := Preparing(plan)])
            && Enabled(decode, w1, SavePrepared(plan.event))
            && Next(decode, w1, SavePrepared(plan.event))
               == w.(plans := w.plans[plan.event := plan], receipts := w.receipts[plan.event := Prepared(plan)])
  {
    assert map[plan.event := Preparing(plan)] - {plan.event} == map[];
  }

  lemma MaterialNamed(decode: Decoder, w: World, plan: Plan)
    requires Material(decode, w, plan.event, plan.target) == Some(plan)
    ensures plan.event in w.evidence && plan.evidence == w.evidence[plan.event]
  {
    hide Decide;
  }

  lemma SameMaterial(decode: Decoder, w: World, later: World, plan: Plan)
    requires w.evidence == later.evidence && RemoteOf(w, plan.target) == RemoteOf(later, plan.target)
    ensures Material(decode, w, plan.event, plan.target) == Material(decode, later, plan.event, plan.target)
  {
    hide Decide;
  }

  lemma CarriedAlike(w: World, later: World, plan: Plan)
    requires w.busy == map[] && later.busy == map[] && w.evidence == later.evidence && w.calls == later.calls
    requires w.remotes == later.remotes && later.plans == w.plans[plan.event := plan]
    requires later.receipts == w.receipts[plan.event := Prepared(plan)]
    ensures Carried(later, plan) == Carried(w, plan)
  {
    hide Publish;
    assert later.receipts[plan.event := Verified(plan)] == w.receipts[plan.event := Verified(plan)];
    assert later.plans[plan.event := plan] == w.plans[plan.event := plan];
  }

  lemma CheckStep(decode: Decoder, w: World, plan: Plan)
    requires w.busy == map[] && Exact(w, plan.event, plan) && ReceiptOf(w, plan.event) == Prepared(plan)
    requires Material(decode, w, plan.event, plan.target) == Some(plan)
    ensures Enabled(decode, w, Check(plan.event, plan))
    ensures Next(decode, w, Check(plan.event, plan)) == w.(busy := map[plan.event := Checked(plan)])
  {
    hide Material;
  }

  lemma SaveStep(decode: Decoder, w: World, plan: Plan)
    requires w.busy == map[plan.event := Checked(plan)] && !plan.action.Noop?
    ensures Enabled(decode, w, SaveDispatching(plan.event))
    ensures Next(decode, w, SaveDispatching(plan.event))
         == w.(receipts := w.receipts[plan.event := Dispatching(plan)], busy := map[plan.event := Saved(plan)])
  {
    assert w.busy[plan.event := Saved(plan)] == map[plan.event := Saved(plan)];
  }

  lemma LandStep(decode: Decoder, w: World, plan: Plan)
    requires w.busy == map[plan.event := Saved(plan)]
    ensures Enabled(decode, w, Call(plan.event, true))
    ensures Next(decode, w, Call(plan.event, true))
         == w.(calls := w.calls + [plan], busy := map[plan.event := Called(plan, true)],
               remotes := w.remotes[plan.target := Publish(RemoteOf(w, plan.target), plan)])
  {
    hide Publish;
    assert w.busy[plan.event := Called(plan, true)] == map[plan.event := Called(plan, true)];
  }

  lemma AcknowledgeStep(decode: Decoder, w: World, plan: Plan)
    requires w.busy == map[plan.event := Called(plan, true)]
    ensures Enabled(decode, w, Acknowledge(plan.event, true))
    ensures Next(decode, w, Acknowledge(plan.event, true))
         == w.(receipts := w.receipts[plan.event := Verified(plan)], busy := map[])
  {
    assert w.busy - {plan.event} == map[];
  }

  /** Approval and submission of a prepared plan. */
  lemma PublishOne(decode: Decoder, worlds: seq<World>, acts: seq<Act>, plan: Plan)
    returns (more: seq<World>, moves: seq<Act>)
    requires Run(decode, worlds, acts) && !plan.action.Noop?
    requires var w := worlds[|worlds| - 1];
             && w.busy == map[] && Exact(w, plan.event, plan) && ReceiptOf(w, plan.event) == Prepared(plan)
             && Material(decode, w, plan.event, plan.target) == Some(plan)
    ensures Run(decode, more, moves) && worlds <= more && more[|more| - 1] == Carried(worlds[|worlds| - 1], plan)
    ensures moves == acts + [Check(plan.event, plan), SaveDispatching(plan.event), Call(plan.event, true),
                             Acknowledge(plan.event, true)]
  {
    var e, w := plan.event, worlds[|worlds| - 1];
    assert Lookup(w.plans, e) == Some(plan);
    CheckStep(decode, w, plan);
    hide Run, Material, Publish, Exact, Enabled, Next;
    var w1 := Extend(decode, worlds, acts, Check(e, plan));
    SaveStep(decode, w1, plan);
    more, moves := worlds + [w1], acts + [Check(e, plan)];
    var w2 := Extend(decode, more, moves, SaveDispatching(e));
    LandStep(decode, w2, plan);
    more, moves := more + [w2], moves + [SaveDispatching(e)];
    var w3 := Extend(decode, more, moves, Call(e, true));
    AcknowledgeStep(decode, w3, plan);
    more, moves := more + [w3], moves + [Call(e, true)];
    var w4 := Extend(decode, more, moves, Acknowledge(e, true));
    more, moves := more + [w4], moves + [Acknowledge(e, true)];
    assert w4.receipts == w.receipts[e := Verified(plan)];
    assert w.plans == w.plans[e := plan];
  }

  /** A remote with both plans' issues, open side by side. */
  predicate Duplicated(remote: Remote, a: Plan, b: Plan) {
    |remote| == 2 && remote[0].isOpen && remote[1].isOpen
    && remote[0].body == IssueBody(a.evidence) && remote[1].body == IssueBody(b.evidence)
  }

  /**
   * Only this tool acts, everything is acknowledged, and still two open issues
   * exist for one fingerprint: whenever the first draft quotes a block that
   * names something else, and the second draft's own text is not on the remote.
   */
  lemma QuotedBlockDuplicates(decode: Decoder, t: TargetId, a: Evidence, b: Evidence)
    returns (worlds: seq<World>, acts: seq<Act>)
    requires Encoded(decode, a) && a.fingerprint == b.fingerprint && !Faithful(decode, a)
    ensures OwnRun(decode, worlds, acts)
    ensures Duplicated(RemoteOf(worlds[|worlds| - 1], t), Plan(0, a, t, Create), Plan(1, b, t, Create))
  {
    hide Extract, IssueBody, Encoded, Faithful, Decide;
    var first, second := Plan(0, a, t, Create), Plan(1, b, t, Create);
    var start := World(map[0 := a, 1 := b], map[], map[], map[], map[], []);
    NothingThere(decode, a);
    NothingThere(decode, b);
    assert Run(decode, [start], []);
    worlds, acts := PublishFresh(decode, [start], [], first);
    var middle := Carried(start, first);
    DuplicateIffQuoted(decode, [], a, b);
    assert RemoteOf(middle, t) == Publish([], Plan(0, a, 0, Create));
    assert ReadyToPublish(decode, worlds, acts, second);
    worlds, acts := PublishFresh(decode, worlds, acts, second);
  }

  /**
   * Only this tool acts, every creation is read back as its own, and still two
   * open issues are read under one fingerprint: a comment rightly added to the
   * first issue quotes a block that names the second one's fingerprint. From
   * then on nothing can be decided for that fingerprint.
   */
  lemma QuotedCommentClashes(decode: Decoder, t: TargetId, a: Evidence, b: Evidence, c: Evidence)
    returns (worlds: seq<World>, acts: seq<Act>)
    requires Extract(decode, IssueBody(a)) == Some(a.fingerprint)
    requires Extract(decode, IssueBody(b)) == Some(b.fingerprint)
    requires a.fingerprint == c.fingerprint != b.fingerprint && Extract(decode, IssueBody(c)) == Some(b.fingerprint)
    ensures OwnRun(decode, worlds, acts) && Apart(decode, worlds[0])
    ensures var remote := RemoteOf(worlds[|worlds| - 1], t);
            && OpenUnder(decode, remote, b.fingerprint, 0) && OpenUnder(decode, remote, b.fingerprint, 1)
            && Decide(decode, remote, b) == None
    ensures worlds[|worlds| - 1].calls == [Plan(0, a, t, Create), Plan(1, b, t, Create), Plan(2, c, t, Comment(0))]
  {
    hide Extract, IssueBody, Decide, Run, Publish, OpenUnder, ReadyToPublish, Carried, Apart;
    var first, second, third := Plan(0, a, t, Create), Plan(1, b, t, Create), Plan(2, c, t, Comment(0));
    var start := World(map[0 := a, 1 := b, 2 := c], map[], map[], map[], map[], []);
    StartsReady(decode, start, first);
    worlds, acts := PublishFresh(decode, [start], [], first);
    SecondIsNew(decode, first, b);
    StaysReady(decode, start, worlds, acts, first, second);
    var middle := Carried(start, first);
    worlds, acts := PublishFresh(decode, worlds, acts, second);
    ThirdComments(decode, first, second, c);
    CarriedRemote(start, first);
    StaysReady(decode, middle, worlds, acts, second, third);
    worlds, acts := PublishFresh(decode, worlds, acts, third);
    CommentClashes(decode, first, second, third);
    CarriedRemote(middle, second);
    CarriedRemote(Carried(middle, second), third);
    NothingApart(decode, start);
  }

  lemma CarriedRemote(w: World, plan: Plan)
    ensures RemoteOf(Carried(w, plan), plan.target) == Publish(RemoteOf(w, plan.target), plan)
    ensures Carried(w, plan).calls == w.calls + [plan] && Carried(w, plan).evidence == w.evidence
    ensures Carried(w, plan).busy == w.busy
    ensures forall e :: e != plan.event ==> ReceiptOf(Carried(w, plan), e) == ReceiptOf(w, e)
  {
    hide Publish;
  }

  lemma StartsReady(decode: Decoder, start: World, plan: Plan)
    requires Initial(start) && start.remotes == map[] && plan.action == Create
    requires Lookup(start.evidence, plan.event) == Some(plan.evidence)
    ensures ReadyToPublish(decode, [start], [], plan)
  {
    hide Decide;
    NothingThere(decode, plan.evidence);
  }

  /** After one publication the next event's turn has come, if the decision is for it. */
  lemma StaysReady(decode: Decoder, w: World, worlds: seq<World>, acts: seq<Act>, done: Plan, plan: Plan)
    requires Run(decode, worlds, acts) && worlds[|worlds| - 1] == Carried(w, done)
    requires w.busy == map[] && ReceiptOf(w, plan.event) == Absent && plan.event != done.event && !plan.action.Noop?
    requires Lookup(w.evidence, plan.event) == Some(plan.evidence) && plan.target == done.target
    requires Decide(decode, Publish(RemoteOf(w, done.target), done), plan.evidence) == Some(plan.action)
    ensures ReadyToPublish(decode, worlds, acts, plan)
  {
    hide Run, Decide, Publish;
    CarriedRemote(w, done);
  }

  lemma NothingApart(decode: Decoder, w: World)
    requires w.remotes == map[]
    ensures Apart(decode, w)
  {
  }

  /** One issue read under another fingerprint does not stop a creation. */
  lemma SecondIsNew(decode: Decoder, first: Plan, b: Evidence)
    requires first.action == Create && Extract(decode, IssueBody(first.evidence)) != Some(b.fingerprint)
    ensures Decide(decode, Publish([], first), b) == Some(Create)
  {
    hide Extract, IssueBody, Decide;
    NoComments(decode, b.fingerprint);
    DecisionCases(decode, Publish([], first), b);
  }

  lemma ThirdComments(decode: Decoder, first: Plan, second: Plan, c: Evidence)
    requires first.action == second.action == Create
    requires Extract(decode, IssueBody(first.evidence)) == Some(c.fingerprint)
    requires Extract(decode, IssueBody(second.evidence)) != Some(c.fingerprint)
    requires Extract(decode, IssueBody(c)) != Some(c.fingerprint)
    ensures Decide(decode, Publish(Publish([], first), second), c) == Some(Comment(0))
  {
    hide Extract, IssueBody, Decide;
    NoComments(decode, c.fingerprint);
    var remote := Publish(Publish([], first), second);
    assert |remote| == 2 && OpenUnder(decode, remote, c.fingerprint, 0) && !OpenUnder(decode, remote, c.fingerprint, 1);
    DecisionCases(decode, remote, c);
  }

  lemma CommentClashes(decode: Decoder, first: Plan, second: Plan, third: Plan)
    requires first.action == second.action == Create && third.action == Comment(0)
    requires Extract(decode, IssueBody(second.evidence)) == Some(second.evidence.fingerprint)
    requires Extract(decode, IssueBody(third.evidence)) == Some(second.evidence.fingerprint)
    ensures var remote, fingerprint := Publish(Publish(Publish([], first), second), third), second.evidence.fingerprint;
            && OpenUnder(decode, remote, fingerprint, 0) && OpenUnder(decode, remote, fingerprint, 1)
            && Decide(decode, remote, second.evidence) == None
  {
    hide Extract, IssueBody, Decide, Matches;
    var one, fingerprint := Publish([], first), second.evidence.fingerprint;
    var two := Publish(one, second);
    var remote := Publish(two, third);
    OpenAfter(decode, one, second, fingerprint, 1);
    OpenAfter(decode, two, third, fingerprint, 0);
    OpenAfter(decode, two, third, fingerprint, 1);
    assert |remote| == 2 && two[0].isOpen;
    DecisionCases(decode, remote, second.evidence);
  }

  /** An empty repository warrants a creation. */
  lemma NothingThere(decode: Decoder, e: Evidence)
    ensures Decide(decode, [], e) == Some(Create)
  {
  }
}
