/** `prepare_request` and `submit_request`, one durable step at a time (ls/core/health_feedback.py). */
module FeedbackDesks {
  import opened Wrappers
  import opened IssueHandoff
  import opened HealthFeedback

  datatype Reason = Busy | AlreadyDispatched | NoMaterial | Offline | NotExact | WrongReceipt | TargetChanged | Changed

  datatype Outcome = Ready(plan: Plan) | Done(verified: bool) | Refused(reason: Reason) | Crashed

  /** The event directories and the remote repositories, shared with every other process. */
  class FeedbackDesk {
    const decode: Decoder
    var evidence: map<EventId, Evidence>
    var plans: map<EventId, Plan>
    var receipts: map<EventId, Receipt>
    var remotes: map<TargetId, Remote>
    var busy: map<EventId, Phase>
    var calls: seq<Plan>
    ghost var worlds: seq<World>
    ghost var acts: seq<Act>

    constructor (decode: Decoder, evidence: map<EventId, Evidence>, remotes: map<TargetId, Remote>)
      ensures Valid() && this.decode == decode && Now() == World(evidence, map[], map[], remotes, map[], [])
    {
      this.decode, this.evidence, this.remotes := decode, evidence, remotes;
      plans, receipts, busy, calls := map[], map[], map[], [];
      worlds, acts := [World(evidence, map[], map[], remotes, map[], [])], [];
    }

    function Now(): World
      reads this
    {
      World(evidence, plans, receipts, remotes, busy, calls)
    }

    /** The fields are the last world of a run. */
    ghost predicate Valid()
      reads this
    {
      Run(decode, worlds, acts) && worlds[|worlds| - 1] == Now()
    }

    /** Appends a step that the fields already show. */
    ghost method Note(act: Act)
      requires Run(decode, worlds, acts) && Enabled(decode, worlds[|worlds| - 1], act)
      requires Next(decode, worlds[|worlds| - 1], act) == Now()
      modifies this`worlds, this`acts
      ensures Valid() && worlds == old(worlds) + [Now()] && acts == old(acts) + [act]
    {
      worlds := worlds + [Now()];
      acts := acts + [act];
    }

    /** History only grew, and without a call for `e`. */
    ghost predicate Quiet(formerWorlds: seq<World>, formerActs: seq<Act>, e: EventId)
      reads this
    {
      formerWorlds <= worlds && formerActs <= acts
      && forall i :: |formerActs| <= i < |acts| ==> !(acts[i].Call? && acts[i].event == e)
    }

    /** What the lock of `e` keeps from other processes. */
    predicate Kept(former: World, e: EventId)
      reads this
    {
      && Lookup(plans, e) == Lookup(former.plans, e) && ReceiptOf(Now(), e) == ReceiptOf(former, e)
      && Lookup(busy, e) == Lookup(former.busy, e)
    }

    /** Any number of steps of other processes, and of whoever writes to the evidence or the remotes. */
    method Interfere(e: EventId, calm: bool)
      requires Valid()
      modifies this
      ensures Valid() && Quiet(old(worlds), old(acts), e) && Kept(old(Now()), e)
      ensures calm ==> Now() == old(Now())
    {
      hide Enabled, Next, Run;
      var n: int := *;
      while n > 0 && !calm
        invariant Valid() && Quiet(old(worlds), old(acts), e) && Kept(old(Now()), e)
        invariant calm ==> Now() == old(Now())
      {
        var act: Act := *;
        if Enabled(decode, Now(), act) && !Touches(act, e) {
          OthersKeep(decode, Now(), act, e);
          var next := Next(decode, Now(), act);
          evidence, plans, receipts, remotes, busy, calls :=
            next.evidence, next.plans, next.receipts, next.remotes, next.busy, next.calls;
          Note(act);
        }
        n := n - 1;
      }
    }

    // ----- the durable steps -----

    /** The process dies, or gives up, and its locks are released. */
    method Release(e: EventId)
      requires Valid() && e in busy
      modifies this
      ensures Valid() && Quiet(old(worlds), old(acts), e)
      ensures Now() == old(Now()).(busy := old(busy) - {e})
    {
      hide Run;
      busy := busy - {e};
      Note(Crash(e));
    }

    method StorePlan(e: EventId, plan: Plan)
      requires Valid() && e !in busy && !Dispatched(ReceiptOf(Now(), e)) && plan.event == e
      modifies this
      ensures Valid() && Quiet(old(worlds), old(acts), e)
      ensures Now() == old(Now()).(plans := old(plans)[e := plan], busy := old(busy)[e := Preparing(plan)])
    {
      hide Run;
      plans, busy := plans[e := plan], busy[e := Preparing(plan)];
      Note(SavePlan(e, plan));
    }

    method StorePrepared(e: EventId, plan: Plan)
      requires Valid() && Lookup(plans, e) == Some(plan) && Lookup(busy, e) == Some(Preparing(plan))
      modifies this
      ensures Valid() && Quiet(old(worlds), old(acts), e)
      ensures Now() == old(Now()).(receipts := old(receipts)[e := Prepared(plan)], busy := old(busy) - {e})
    {
      hide Run;
      receipts, busy := receipts[e := Prepared(plan)], busy - {e};
      Note(SavePrepared(e));
    }

    method BeginCheck(e: EventId, approved: Plan)
      requires Valid() && Enabled(decode, Now(), Check(e, approved))
      modifies this
      ensures Valid() && Quiet(old(worlds), old(acts), e)
      ensures Now() == old(Now()).(busy := old(busy)[e := Checked(approved)])
    {
      hide Run, Material;
      busy := busy[e := Checked(approved)];
      Note(Check(e, approved));
    }

    method StoreNoop(e: EventId, approved: Plan)
      requires Valid() && Lookup(busy, e) == Some(Checked(approved)) && approved.action.Noop?
      modifies this
      ensures Valid() && Quiet(old(worlds), old(acts), e)
      ensures Now() == old(Now()).(receipts := old(receipts)[e := Verified(approved)], busy := old(busy) - {e})
    {
      hide Run;
      receipts, busy := receipts[e := Verified(approved)], busy - {e};
      Note(SaveNoop(e));
    }

    method StoreDispatching(e: EventId, approved: Plan)
      requires Valid() && Lookup(busy, e) == Some(Checked(approved)) && !approved.action.Noop?
      modifies this
      ensures Valid() && Quiet(old(worlds), old(acts), e)
      ensures Now() == old(Now()).(receipts := old(receipts)[e := Dispatching(approved)],
                                   busy := old(busy)[e := Saved(approved)])
    {
      hide Run;
      receipts, busy := receipts[e := Dispatching(approved)], busy[e := Saved(approved)];
      Note(SaveDispatching(e));
    }

    /** The one remote call; whether it took effect is not known here. */
    method CallOnce(e: EventId, approved: Plan, calm: bool) returns (landed: bool)
      requires Valid() && Lookup(busy, e) == Some(Saved(approved))
      modifies this
      ensures Valid() && old(worlds) <= worlds && acts == old(acts) + [Call(e, landed)] && (calm ==> landed)
      ensures Now() == old(Now()).(
                calls := old(calls) + [approved], busy := old(busy)[e := Called(approved, landed)],
                remotes := if !landed then old(remotes) else
                  old(remotes)[approved.target := Publish(RemoteOf(old(Now()), approved.target), approved)])
    {
      hide Run, Publish;
      landed := *;
      landed := landed || calm;
      if landed {
        remotes := remotes[approved.target := Publish(RemoteOf(Now(), approved.target), approved)];
      }
      calls, busy := calls + [approved], busy[e := Called(approved, landed)];
      Note(Call(e, landed));
    }

    method StoreOutcome(e: EventId, approved: Plan, landed: bool, verified: bool)
      requires Valid() && Lookup(busy, e) == Some(Called(approved, landed)) && (verified ==> landed)
      modifies this
      ensures Valid() && Quiet(old(worlds), old(acts), e)
      ensures Now() == old(Now()).(
                receipts := old(receipts)[e := if verified then Verified(approved) else Unknown(approved)],
                busy := old(busy) - {e})
    {
      hide Run;
      receipts, busy := receipts[e := if verified then Verified(approved) else Unknown(approved)], busy - {e};
      Note(Acknowledge(e, verified));
    }

    /** `_reconcile`: only reads, and verifies the receipt when the payload is seen exactly once. */
    method ReconcileOnce(e: EventId, approved: Plan, calm: bool) returns (res: Outcome)
      requires Valid() && Enabled(decode, Now(), Reconcile(e, approved, true))
      modifies this
      ensures Valid() && Quiet(old(worlds), old(acts), e)
      ensures res.Done? && (res.verified ==> CarriedOnce(RemoteOf(old(Now()), approved.target), approved))
      ensures calm ==> (res.verified <==> CarriedOnce(RemoteOf(old(Now()), approved.target), approved))
      ensures Now() == if res.verified then old(Now()).(receipts := old(receipts)[e := Verified(approved)])
                       else old(Now())
    {
      hide Run, Publish, SeenOnce, CarriedOnce;
      SeenOnceMeans(RemoteOf(Now(), approved.target), approved);
      var read: bool := *;
      var answered := read || calm;
      var seen := answered && SeenOnce(RemoteOf(Now(), approved.target), approved);
      if seen {
        receipts := receipts[e := Verified(approved)];
      }
      Note(Reconcile(e, approved, answered));
      res := Done(seen);
    }

    // ----- the two requests -----

    /** `prepare_request`. */
    method Prepare(e: EventId, target: TargetId, calm: bool) returns (res: Outcome)
      requires Valid()
      modifies this
      ensures Valid() && Quiet(old(worlds), old(acts), e)
      ensures res.Ready? ==> Exact(Now(), e, res.plan) && ReceiptOf(Now(), e) == Prepared(res.plan)
      ensures res.Ready? ==> res.plan.event == e && res.plan.target == target
      ensures !res.Ready? ==> ReceiptOf(Now(), e) == ReceiptOf(old(Now()), e)
      ensures res.Ready? || res.Crashed? ==> e !in busy
      ensures res.Refused? ==> Lookup(plans, e) == Lookup(old(plans), e) && (calm ==> Now() == old(Now()))
      ensures calm ==> match Preparable(decode, old(Now()), e, target)
                       case None => res.Refused?
                       case Some(action) => res == Ready(Plan(e, old(evidence)[e], target, action))
    {
      hide Run, Material;
      if e in busy {
        return Refused(Busy);
      }
      if Dispatched(ReceiptOf(Now(), e)) {
        return Refused(AlreadyDispatched);
      }
      MaterialMeans(decode, Now(), e, target);
      Interfere(e, calm);
      var online: bool := *;
      if !online && !calm {
        return Refused(Offline);
      }
      var material := Material(decode, Now(), e, target);
      if material.None? {
        return Refused(NoMaterial);
      }
      MaterialNames(decode, Now(), e, target);
      Interfere(e, calm);
      StorePlan(e, material.value);
      var stopped: bool := *;
      if stopped && !calm {
        Release(e);
        return Crashed;
      }
      Interfere(e, calm);
      StorePrepared(e, material.value);
      res := Ready(material.value);
    }

    /** A call for `e` was issued at most once since the given point. */
    ghost predicate OneCall(formerActs: seq<Act>, e: EventId)
      reads this
    {
      formerActs <= acts
      && forall i, j :: |formerActs| <= i < j < |acts| && acts[i].Call? && acts[j].Call? ==>
          acts[i].event != e || acts[j].event != e
    }

    /** `submit_request`; `observed` is the repository identity the remote answers with. */
    method Submit(e: EventId, approved: Plan, observed: TargetId, calm: bool) returns (res: Outcome)
      requires Valid()
      modifies this
      ensures Valid() && old(worlds) <= worlds && OneCall(old(acts), e)
      ensures Dispatched(ReceiptOf(old(Now()), e)) || !Exact(old(Now()), e, approved) ==>
                Quiet(old(worlds), old(acts), e)
      ensures calm && Submittable(decode, old(Now()), e, approved, observed) ==>
                res == Done(true) && Now() == Submitted(old(Now()), e, approved)
      ensures calm && Retryable(old(Now()), e, approved, observed) ==>
                res == Done(ReceiptOf(old(Now()), e).Verified?
                            || CarriedOnce(RemoteOf(old(Now()), approved.target), approved))
                && calls == old(calls) && remotes == old(remotes)
      ensures calm && !Submittable(decode, old(Now()), e, approved, observed)
                && !Retryable(old(Now()), e, approved, observed) ==>
                res.Refused? && Now() == old(Now())
      ensures Answers(res, e, approved)
      ensures res.Refused? ==> Quiet(old(worlds), old(acts), e) && Kept(old(Now()), e)
    {
      hide Run, Material, Submitted, SeenOnce, CarriedOnce;
      if e in busy {
        return Refused(Busy);
      }
      if e !in plans || plans[e] != approved {
        return Refused(NotExact);
      }
      var receipt := ReceiptOf(Now(), e);
      if receipt.Absent? || receipt.plan != approved {
        return Refused(WrongReceipt);
      }
      var online: bool := *;
      if !online && !calm {
        return Refused(Offline);
      }
      if observed != approved.target {
        return Refused(TargetChanged);
      }
      Interfere(e, calm);
      if !TargetFree(Now(), approved.target) {
        return Refused(Busy);
      }
      if receipt.Dispatching? || receipt.Unknown? {
        res := ReconcileOnce(e, approved, calm);
        return;
      }
      if receipt.Verified? {
        return Done(true);
      }
      res := SubmitPrepared(e, approved, calm);
    }

    /** The answer is what the receipt says: verified, still unknown, or, after a crash, still dispatching. */
    ghost predicate Answers(res: Outcome, e: EventId, approved: Plan)
      reads this
    {
      match res
      case Done(true) => ReceiptOf(Now(), e) == Verified(approved)
      case Done(false) => ReceiptOf(Now(), e) == Unknown(approved) || ReceiptOf(Now(), e) == Dispatching(approved)
      case Crashed => ReceiptOf(Now(), e) == Dispatching(approved) && e !in busy
      case Refused(_) => true
      case Ready(_) => false
    }

    method SubmitPrepared(e: EventId, approved: Plan, calm: bool) returns (res: Outcome)
      requires Valid() && e !in busy && Exact(Now(), e, approved) && ReceiptOf(Now(), e).Prepared?
      requires TargetFree(Now(), approved.target)
      modifies this
      ensures Valid() && old(worlds) <= worlds && OneCall(old(acts), e)
      ensures calm && Material(decode, old(Now()), e, approved.target) == Some(approved) ==>
                res == Done(true) && Now() == Submitted(old(Now()), e, approved)
      ensures Material(decode, old(Now()), e, approved.target) != Some(approved) ==> res.Refused?
      ensures Answers(res, e, approved)
      ensures res.Refused? ==> Now() == old(Now()) && worlds == old(worlds) && acts == old(acts)
    {
      hide Run, Material, TargetFree, Exact, Publish;
      if Material(decode, Now(), e, approved.target) != Some(approved) {
        return Refused(Changed);
      }
      ghost var start := Now();
      BeginCheck(e, approved);
      Collapse(start.busy, e, Checked(approved), Saved(approved));
      Overwrite(start.receipts, e, Dispatching(approved), Verified(approved));
      if approved.action.Noop? {
        StoreNoop(e, approved);
        return Done(true);
      }
      StoreDispatching(e, approved);
      hide Valid, OneCall, Quiet, Kept;
      res := Dispatch(e, approved, calm);
    }

    /** Behind a saved dispatch receipt: the one remote call, and the record of its answer. */
    method Dispatch(e: EventId, approved: Plan, calm: bool) returns (res: Outcome)
      requires Valid() && Lookup(busy, e) == Some(Saved(approved)) && ReceiptOf(Now(), e) == Dispatching(approved)
      modifies this
      ensures Valid() && old(worlds) <= worlds && OneCall(old(acts), e)
      ensures calm ==>
                res == Done(true)
                && Now() == old(Now()).(
                     receipts := old(receipts)[e := Verified(approved)], busy := old(busy) - {e},
                     calls := old(calls) + [approved],
                     remotes := old(remotes)[approved.target :=
                       Publish(RemoteOf(old(Now()), approved.target), approved)])
      ensures !res.Refused? && Answers(res, e, approved)
    {
      hide Run, Publish, RemoteOf;
      Interfere(e, calm);
      var stopped: bool := *;
      if stopped && !calm {
        Release(e);
        return Crashed;
      }
      var landed := CallOnce(e, approved, calm);
      Interfere(e, calm);
      stopped := *;
      if stopped && !calm {
        Release(e);
        return Crashed;
      }
      var acknowledged: bool := *;
      var verified := landed && (acknowledged || calm);
      StoreOutcome(e, approved, landed, verified);
      assert calm ==> busy == old(busy) - {e};
      res := Done(verified);
    }
  }

  lemma Collapse(m: map<EventId, Phase>, e: EventId, a: Phase, b: Phase)
    ensures m[e := a] - {e} == m - {e} && m[e := a][e := b] - {e} == m - {e}
  {
  }

  lemma Overwrite(m: map<EventId, Receipt>, e: EventId, a: Receipt, b: Receipt)
    ensures m[e := a][e := b] == m[e := b]
  {
  }

  lemma MaterialNames(decode: Decoder, w: World, e: EventId, t: TargetId)
    requires Material(decode, w, e, t).Some?
    ensures Material(decode, w, e, t).value.event == e && Material(decode, w, e, t).value.target == t
  {
    hide Decide;
  }

  /** What a preparation decides to do: nothing while the event is held or dispatched, lacks evidence, or is
      undecided. */
  ghost function Preparable(decode: Decoder, w: World, e: EventId, t: TargetId): Option<Action> {
    if e in w.busy || e !in w.evidence || (e in w.receipts && !w.receipts[e].Absent? && !w.receipts[e].Prepared?) then
      None
    else Decide(decode, if t in w.remotes then w.remotes[t] else [], w.evidence[e])
  }

  lemma MaterialMeans(decode: Decoder, w: World, e: EventId, t: TargetId)
    requires e !in w.busy && !Dispatched(ReceiptOf(w, e))
    ensures Material(decode, w, e, t).Some? <==> Preparable(decode, w, e, t).Some?
    ensures Material(decode, w, e, t).Some? ==>
              Material(decode, w, e, t).value == Plan(e, w.evidence[e], t, Preparable(decode, w, e, t).value)
  {
    hide Decide;
  }

  /** No event's process is past its check at the target. */
  ghost predicate NobodyAt(w: World, t: TargetId) {
    forall e :: e in w.busy && w.busy[e].plan.target == t ==> w.busy[e].Preparing?
  }

  /** The approved plan is stored, receipted as prepared, undisturbed, and still the exact material. */
  ghost predicate Submittable(decode: Decoder, w: World, e: EventId, approved: Plan, observed: TargetId) {
    && e !in w.busy && Exact(w, e, approved) && ReceiptOf(w, e).Prepared? && observed == approved.target
    && NobodyAt(w, approved.target) && Material(decode, w, e, observed) == Some(approved)
  }

  /** The event was dispatched before, at exactly this payload and target, and nobody is at work. */
  ghost predicate Retryable(w: World, e: EventId, approved: Plan, observed: TargetId) {
    && e !in w.busy && Exact(w, e, approved) && Dispatched(ReceiptOf(w, e)) && observed == approved.target
    && NobodyAt(w, approved.target)
  }

  /** The world after an undisturbed submission: the plan published once, the receipt verified. */
  ghost function Submitted(w: World, e: EventId, approved: Plan): World {
    var done := w.(receipts := w.receipts[e := Verified(approved)], busy := w.busy - {e});
    if approved.action.Noop? then done
    else
      done.(calls := w.calls + [approved],
            remotes := w.remotes[approved.target := Publish(RemoteOf(w, approved.target), approved)])
  }
}
