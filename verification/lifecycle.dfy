/**
 * The lifecycle of one rescue case as the handlers drive it: each handler's
 * effect on the case record as one step, runs of steps, and the properties
 * of the status flow that hold across them.
 */
module Lifecycle {
  import opened Wrappers
  import opened RescueRequestModel
  import NgoController
  import HospitalController
  import AmbulanceController
  import EscalationCron
  import AdminController

  /** The status flow documented on the rescue-request schema. */
  predicate DocumentedEdge(from: Status, to: Status) {
    || (from == Pending && to == NgoAccepted)
    || (from == Pending && to == HospitalEscalated)
    || (from == HospitalEscalated && to == AmbulanceAssigned)
    || (from == AmbulanceAssigned && to == EnRoute)
    || (from == EnRoute && to == PickedUp)
    || (from == PickedUp && to == Delivered)
    || (from == Delivered && to == Completed)
  }

  /**
   * What can happen to a case. `reporterExists` says whether the reporter's
   * account is still there when a completion tries to refund it.
   */
  datatype Action =
    | AcceptBy(ngo: UserId, now: Time)
    | RejectBy(ngo: UserId)
    | EscalateAt(now: Time)
    | AssignTo(hospital: UserId, ambulance: UserId, now: Time)
    | AdvanceTo(caller: UserId, requested: string, now: Time, reporterExists: bool)
    | OverrideTo(status: Option<string>, notes: Option<string>)

  /** Everything but the administrator's override. */
  predicate Engine(a: Action) {
    !a.OverrideTo?
  }

  /** The stored case after a handler's reply: the updated case, or the old one when refused. */
  function Outcome<E>(r: Result<RescueRequest, E>, c: RescueRequest): RescueRequest {
    if r.Ok? then r.value else c
  }

  /** What no handler changes: the reporter, the report itself, its creation time and whether a deposit was taken. */
  predicate SameReport(c: RescueRequest, d: RescueRequest) {
    && d.user == c.user && d.description == c.description && d.images == c.images && d.video == c.video
    && d.location == c.location && d.createdAt == c.createdAt && d.depositDeducted == c.depositDeducted
  }

  /** The case after one action; a refused action leaves it as it was. */
  function Step(c: RescueRequest, a: Action): (next: RescueRequest)
    ensures SameReport(c, next)
    ensures c.depositRefunded ==> next.depositRefunded
  {
    match a
    case AcceptBy(ngo, now) => Outcome(NgoController.Accept(c, ngo, now), c)
    case RejectBy(ngo) => Outcome(NgoController.Reject(c, ngo), c)
    case EscalateAt(now) => if EscalationCron.IsStale(c, now) then EscalationCron.Escalated(c, now) else c
    case AssignTo(hospital, ambulance, now) => Outcome(HospitalController.Assign(c, hospital, ambulance, now), c)
    case AdvanceTo(caller, requested, now, reporterExists) =>
      (match AmbulanceController.Advance(c, caller, requested, now)
       case Err(_) => c
       case Ok(next) => if AmbulanceController.RefundDue(next) && reporterExists then next.(depositRefunded := true) else next)
    case OverrideTo(status, notes) => Outcome(AdminController.Override([c], 0, status, notes), c)
  }

  /** The case after a sequence of actions. */
  function Run(c: RescueRequest, actions: seq<Action>): (last: RescueRequest)
    ensures SameReport(c, last)
    ensures c.depositRefunded ==> last.depositRefunded
    decreases |actions|
  {
    if actions == [] then c else Run(Step(c, actions[0]), actions[1..])
  }

  /** How many actions of a run refunded the deposit. */
  function Refunds(c: RescueRequest, actions: seq<Action>): nat
    decreases |actions|
  {
    if actions == [] then 0
    else
      var next := Step(c, actions[0]);
      (if !c.depositRefunded && next.depositRefunded then 1 else 0) + Refunds(next, actions[1..])
  }

  /** The escalation step is the tick applied to this one case. */
  lemma EscalateIsTick(c: RescueRequest, now: Time)
    ensures Step(c, EscalateAt(now)) == EscalationCron.TickResult([c], now, {})[0]
  {
  }

  /**
   * The handlers follow the documented flow, except that delivery goes on to
   * completion in the same step; and nothing but the override cancels a case.
   */
  lemma StepFollowsFlow(c: RescueRequest, a: Action)
    requires Engine(a)
    ensures var s := Step(c, a).status;
            s != c.status ==> DocumentedEdge(c.status, s) || (c.status == PickedUp && s == Completed)
    ensures Step(c, a).status != Delivered || c.status == Delivered
  {
  }

  /** The skipped delivered status sits on the documented path between picked-up and completed. */
  lemma DeliveryIsShortcut()
    ensures DocumentedEdge(PickedUp, Delivered) && DocumentedEdge(Delivered, Completed)
    ensures !DocumentedEdge(PickedUp, Completed)
  {
  }

  /** A case an NGO accepted is never moved on by any handler but the override. */
  lemma {:induction false} NgoAcceptedIsTerminal(c: RescueRequest, actions: seq<Action>)
    requires c.status == NgoAccepted
    requires forall i | 0 <= i < |actions| :: Engine(actions[i])
    ensures Run(c, actions).status == NgoAccepted
    decreases |actions|
  {
    if actions != [] {
      StepFollowsFlow(c, actions[0]);
      assert forall i | 0 <= i < |actions[1..]| :: Engine(actions[1..][i]) by {
        forall i | 0 <= i < |actions[1..]| ensures Engine(actions[1..][i]) {
          assert actions[1..][i] == actions[i + 1];
        }
      }
      NgoAcceptedIsTerminal(Step(c, actions[0]), actions[1..]);
    }
  }

  /** Without the override, a case that is not cancelled never becomes cancelled. */
  lemma {:induction false} NeverCancelledByEngine(c: RescueRequest, actions: seq<Action>)
    requires c.status != Cancelled
    requires forall i | 0 <= i < |actions| :: Engine(actions[i])
    ensures Run(c, actions).status != Cancelled
    decreases |actions|
  {
    if actions != [] {
      StepFollowsFlow(c, actions[0]);
      assert forall i | 0 <= i < |actions[1..]| :: Engine(actions[1..][i]) by {
        forall i | 0 <= i < |actions[1..]| ensures Engine(actions[1..][i]) {
          assert actions[1..][i] == actions[i + 1];
        }
      }
      NeverCancelledByEngine(Step(c, actions[0]), actions[1..]);
    }
  }

  /**
   * The milestones a case's status implies: who was assigned and when each
   * step was reached.
   */
  predicate Progressed(c: RescueRequest) {
    && (c.status == NgoAccepted ==> c.assignedNGO.Some? && c.acceptedAt.Some?)
    && (c.status == HospitalEscalated ==> c.escalatedAt.Some?)
    && (Dispatched(c.status) ==>
          c.escalatedAt.Some? && c.assignedHospital.Some? && c.assignedAmbulance.Some? && c.ambulanceAssignedAt.Some?)
    && (Underway(c.status) ==> c.enRouteAt.Some?)
    && (c.status == PickedUp || c.status == Completed ==> c.pickedUpAt.Some?)
    && (c.status == Completed ==> c.deliveredAt.Some? && c.completedAt.Some?)
    && (c.depositRefunded ==> c.depositDeducted)
  }

  /** The statuses from dispatch onwards. */
  predicate Dispatched(s: Status) {
    s == AmbulanceAssigned || s == EnRoute || s == PickedUp || s == Completed
  }

  /** The statuses once the ambulance is on its way. */
  predicate Underway(s: Status) {
    s == EnRoute || s == PickedUp || s == Completed
  }

  /** A freshly created case has made no progress, consistently. */
  lemma NewCaseProgressed(user: UserId, description: string, images: seq<string>, video: Option<string>,
                          location: CaseLocation, depositDeducted: bool, now: Time)
    ensures Progressed(NewRescueRequest(user, description, images, video, location, depositDeducted, now))
  {
  }

  /** Every handler keeps the milestones in step with the status. */
  lemma StepKeepsProgressed(c: RescueRequest, a: Action)
    requires Progressed(c) && Engine(a)
    ensures Progressed(Step(c, a))
  {
    match a
    case AcceptBy(ngo, now) =>
    case RejectBy(ngo) =>
    case EscalateAt(now) =>
    case AssignTo(hospital, ambulance, now) =>
    case AdvanceTo(caller, requested, now, reporterExists) =>
      AdvanceKeepsProgressed(c, caller, requested, now, reporterExists);
  }

  lemma AdvanceKeepsProgressed(c: RescueRequest, caller: UserId, requested: string, now: Time, reporterExists: bool)
    requires Progressed(c)
    ensures Progressed(Step(c, AdvanceTo(caller, requested, now, reporterExists)))
  {
    var r := AmbulanceController.Advance(c, caller, requested, now);
    if r.Ok? {
      var next := r.value;
      assert next.assignedAmbulance == c.assignedAmbulance && next.assignedHospital == c.assignedHospital;
      assert next.depositDeducted == c.depositDeducted && next.depositRefunded == c.depositRefunded;
      if c.status == AmbulanceAssigned {
        assert next == c.(status := EnRoute, enRouteAt := Some(now));
      } else if c.status == EnRoute {
        assert next == c.(status := PickedUp, pickedUpAt := Some(now));
      } else {
        assert next == c.(status := Completed, deliveredAt := Some(now), completedAt := Some(now));
      }
    }
  }

  /** The override can put a case into a status whose milestones it never reached. */
  lemma OverrideSkipsMilestones(c: RescueRequest)
    requires c.status == Pending && NoMilestones(c)
    ensures Step(c, OverrideTo(Some("completed"), None)).status == Completed
    ensures !Progressed(Step(c, OverrideTo(Some("completed"), None)))
  {
  }

  lemma {:induction false} RunKeepsProgressed(c: RescueRequest, actions: seq<Action>)
    requires Progressed(c)
    requires forall i | 0 <= i < |actions| :: Engine(actions[i])
    ensures Progressed(Run(c, actions))
    decreases |actions|
  {
    if actions != [] {
      StepKeepsProgressed(c, actions[0]);
      assert forall i | 0 <= i < |actions[1..]| :: Engine(actions[1..][i]) by {
        forall i | 0 <= i < |actions[1..]| ensures Engine(actions[1..][i]) {
          assert actions[1..][i] == actions[i + 1];
        }
      }
      RunKeepsProgressed(Step(c, actions[0]), actions[1..]);
    }
  }

  /** No action, the override included, takes a refund back; a refund needs a taken deposit. */
  lemma StepKeepsRefund(c: RescueRequest, a: Action)
    ensures c.depositRefunded ==> Step(c, a).depositRefunded
    ensures !c.depositRefunded && Step(c, a).depositRefunded ==> c.depositDeducted && a.AdvanceTo?
  {
  }

  /** Whatever the actions, the override included, a deposit is refunded at most once. */
  lemma {:induction false} RefundedAtMostOnce(c: RescueRequest, actions: seq<Action>)
    ensures Refunds(c, actions) <= (if c.depositRefunded then 0 else 1)
    ensures Refunds(c, actions) == 1 ==> c.depositDeducted
    decreases |actions|
  {
    if actions != [] {
      var next := Step(c, actions[0]);
      StepKeepsRefund(c, actions[0]);
      RefundedAtMostOnce(next, actions[1..]);
      if !c.depositRefunded && next.depositRefunded {
        assert Refunds(next, actions[1..]) == 0;
      }
    }
  }

  /** Running a sequence is stepping its first action, then running the rest. */
  lemma RunFirst(c: RescueRequest, a: Action, rest: seq<Action>)
    ensures Run(c, [a] + rest) == Run(Step(c, a), rest)
    ensures Refunds(c, [a] + rest) == (if !c.depositRefunded && Step(c, a).depositRefunded then 1 else 0) + Refunds(Step(c, a), rest)
  {
    assert ([a] + rest)[1..] == rest;
  }

  /** An ambulance drives its assigned case to completion in three updates, refunding a taken deposit. */
  lemma DriveToCompletion(c: RescueRequest, ambulance: UserId, t: Time)
    requires c.status == AmbulanceAssigned && c.assignedAmbulance == Some(ambulance) && !c.depositRefunded
    ensures var drive := [AdvanceTo(ambulance, "en_route", t, true), AdvanceTo(ambulance, "picked_up", t, true),
                          AdvanceTo(ambulance, "delivered", t, true)];
            var end := Run(c, drive);
            && end == c.(status := Completed, enRouteAt := Some(t), pickedUpAt := Some(t), deliveredAt := Some(t),
                         completedAt := Some(t), depositRefunded := c.depositDeducted)
            && Refunds(c, drive) == (if c.depositDeducted then 1 else 0)
  {
    var a3 := AdvanceTo(ambulance, "en_route", t, true);
    var a4 := AdvanceTo(ambulance, "picked_up", t, true);
    var a5 := AdvanceTo(ambulance, "delivered", t, true);
    var c3 := Step(c, a3);
    assert c3 == c.(status := EnRoute, enRouteAt := Some(t));
    var c4 := Step(c3, a4);
    assert c4 == c3.(status := PickedUp, pickedUpAt := Some(t));
    var c5 := Step(c4, a5);
    assert c5 == c4.(status := Completed, deliveredAt := Some(t), completedAt := Some(t), depositRefunded := c.depositDeducted);
    RunFirst(c4, a5, []);
    RunFirst(c3, a4, [a5]);
    RunFirst(c, a3, [a4, a5]);
    assert [a4] + [a5] == [a4, a5] && [a3] + [a4, a5] == [a3, a4, a5];
  }

  /**
   * The primary path runs to the end: a case left pending for five minutes is
   * escalated, dispatched, and driven to completion, which refunds a taken deposit.
   */
  lemma PrimaryPath(c: RescueRequest, hospital: UserId, ambulance: UserId, t: Time)
    requires c.status == Pending && !c.depositRefunded
    requires c.createdAt + EscalationCron.EscalationDelayMs <= t
    ensures var actions := [EscalateAt(t), AssignTo(hospital, ambulance, t), AdvanceTo(ambulance, "en_route", t, true),
                            AdvanceTo(ambulance, "picked_up", t, true), AdvanceTo(ambulance, "delivered", t, true)];
            var end := Run(c, actions);
            && end.status == Completed
            && end.assignedHospital == Some(hospital) && end.assignedAmbulance == Some(ambulance)
            && end.depositRefunded == c.depositDeducted
            && Refunds(c, actions) == (if c.depositDeducted then 1 else 0)
  {
    var a1 := EscalateAt(t);
    var a2 := AssignTo(hospital, ambulance, t);
    var drive := [AdvanceTo(ambulance, "en_route", t, true), AdvanceTo(ambulance, "picked_up", t, true),
                  AdvanceTo(ambulance, "delivered", t, true)];
    var c1 := Step(c, a1);
    assert c1.status == HospitalEscalated && !c1.depositRefunded && c1.depositDeducted == c.depositDeducted;
    var c2 := Step(c1, a2);
    assert c2 == c1.(status := AmbulanceAssigned, assignedHospital := Some(hospital),
                     assignedAmbulance := Some(ambulance), ambulanceAssignedAt := Some(t));
    DriveToCompletion(c2, ambulance, t);
    RunFirst(c1, a2, drive);
    RunFirst(c, a1, [a2] + drive);
    assert [a1] + ([a2] + drive) == [a1, a2] + drive;
  }
}
