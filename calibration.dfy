/**
 * The user-tracking callbacks. Each notification from the tracker is handled
 * by a decision on the session's "pose needed" flag and pose name, and issues
 * zero or more commands back to the tracker. The handlers keep no per-user
 * state: the lifecycle of a user (idle, waiting for the pose, calibrating,
 * tracked) is only visible in the commands issued for it, and is derived from
 * them here.
 */
module Calibration {

  /** A tracker user identifier. */
  type UserId = nat

  /** Outcome reported when a calibration attempt ends. */
  datatype CalibrationStatus = Ok | ManualAbort | OtherFailure

  /** A notification from the tracker, with the user it concerns. */
  datatype Event =
    | NewUser(user: UserId)
    | LostUser(user: UserId)
    | UserExit(user: UserId)
    | UserReEnter(user: UserId)
    | PoseDetected(user: UserId, detected: string)
    | CalibrationStart(user: UserId)
    | CalibrationComplete(user: UserId, status: CalibrationStatus)

  /** A command to the tracker. */
  datatype Command =
    | StartPoseDetection(pose: string, user: UserId)
    | StopPoseDetection(user: UserId)
    | RequestCalibration(user: UserId, force: bool)
    | StartTracking(user: UserId)

  /**
   * What a new user, and a failed calibration that was not aborted, issue:
   * wait for the calibration pose if one is needed, else calibrate at once.
   */
  function BeginCalibration(needPose: bool, pose: string, user: UserId): (cmds: seq<Command>)
    ensures |cmds| == 1 && cmds[0].user == user
    ensures cmds[0].StartPoseDetection? <==> needPose
    ensures needPose ==> cmds[0] == StartPoseDetection(pose, user)
    ensures !needPose ==> cmds[0] == RequestCalibration(user, true)
  {
    if needPose then [StartPoseDetection(pose, user)] else [RequestCalibration(user, true)]
  }

  /**
   * The commands issued for event `e`. The detected-pose callback is only
   * registered when the session needs a calibration pose; without one, a
   * detected pose reaches no handler and issues nothing.
   */
  function Handle(needPose: bool, pose: string, e: Event): (cmds: seq<Command>)
    ensures |cmds| <= 2
    ensures forall c :: c in cmds ==> c.user == e.user
    ensures forall c :: c in cmds && c.StartPoseDetection? ==> needPose && c.pose == pose
    ensures forall c :: c in cmds && c.RequestCalibration? ==> c.force
    ensures StartTracking(e.user) in cmds <==> e == CalibrationComplete(e.user, Ok)
    ensures StopPoseDetection(e.user) in cmds <==> needPose && e.PoseDetected?
  {
    match e
    case NewUser(u) => BeginCalibration(needPose, pose, u)
    case LostUser(_) => []
    case UserExit(_) => []
    case UserReEnter(_) => []
    case PoseDetected(u, _) => if needPose then [StopPoseDetection(u), RequestCalibration(u, true)] else []
    case CalibrationStart(_) => []
    case CalibrationComplete(u, status) =>
      match status
      case Ok => [StartTracking(u)]
      case ManualAbort => []
      case OtherFailure => BeginCalibration(needPose, pose, u)
  }

  /** The commands issued, in order, for a sequence of notifications. */
  function Run(needPose: bool, pose: string, events: seq<Event>): seq<Command>
  {
    if events == [] then []
    else Run(needPose, pose, events[..|events| - 1]) + Handle(needPose, pose, events[|events| - 1])
  }

  /** One more notification appends its commands to the run. */
  lemma RunSnoc(needPose: bool, pose: string, events: seq<Event>, e: Event)
    ensures Run(needPose, pose, events + [e]) == Run(needPose, pose, events) + Handle(needPose, pose, e)
  {
    assert (events + [e])[..|events|] == events;
  }

  // ---------------------------------------------------------------------------
  // Direct properties of the handlers
  // ---------------------------------------------------------------------------

  /** A new user and a calibration failure other than a manual abort issue the same single command. */
  lemma NewUserAndRetryAgree(needPose: bool, pose: string, u: UserId)
    ensures Handle(needPose, pose, NewUser(u)) == Handle(needPose, pose, CalibrationComplete(u, OtherFailure))
    ensures Handle(needPose, pose, NewUser(u))
      == (if needPose then [StartPoseDetection(pose, u)] else [RequestCalibration(u, true)])
  {
  }

  /**
   * Lost, exit, re-entry, calibration start and manual abort issue nothing,
   * and so does a detected pose when no pose is needed.
   */
  lemma SilentEvents(needPose: bool, pose: string, e: Event)
    ensures Handle(needPose, pose, e) == [] <==>
      e.LostUser? || e.UserExit? || e.UserReEnter? || e.CalibrationStart?
      || e == CalibrationComplete(e.user, ManualAbort) || (e.PoseDetected? && !needPose)
  {
  }

  /**
   * When a pose is needed, a detected pose stops pose detection, then
   * requests calibration, and nothing else.
   */
  lemma PoseDetectedOrder(pose: string, u: UserId, detected: string)
    ensures Handle(true, pose, PoseDetected(u, detected))
      == [StopPoseDetection(u), RequestCalibration(u, true)]
  {
  }

  /** When no pose is needed, the detected-pose callback is not registered: nothing is issued. */
  lemma PoseIgnoredWithoutPose(pose: string, u: UserId, detected: string)
    ensures Handle(false, pose, PoseDetected(u, detected)) == []
  {
  }

  /** Successful calibration only starts tracking. */
  lemma CalibrationSuccess(needPose: bool, pose: string, u: UserId)
    ensures Handle(needPose, pose, CalibrationComplete(u, Ok)) == [StartTracking(u)]
  {
  }

  /** When every notification of a run concerns user `u`, every command of the run is addressed to `u`. */
  lemma {:induction false} RunAddressesUsers(needPose: bool, pose: string, events: seq<Event>, u: UserId)
    requires forall i :: 0 <= i < |events| ==> events[i].user == u
    ensures forall c :: c in Run(needPose, pose, events) ==> c.user == u
  {
    if events != [] {
      var last := |events| - 1;
      assert forall i :: 0 <= i < last ==> events[..last][i] == events[i];
      RunAddressesUsers(needPose, pose, events[..last], u);
    }
  }

  // ---------------------------------------------------------------------------
  // The lifecycle of one user, derived from the commands issued for it
  // ---------------------------------------------------------------------------

  /** What the tracker is doing for a user, as the last command issued for it says. */
  datatype Phase = Idle | AwaitingPose | Calibrating | Tracking

  /** The phase after one command. */
  function After(p: Phase, c: Command): Phase
  {
    match c
    case StartPoseDetection(_, _) => AwaitingPose
    case StopPoseDetection(_) => Idle
    case RequestCalibration(_, _) => Calibrating
    case StartTracking(_) => Tracking
  }

  /** The phase after a sequence of commands. */
  function AfterAll(p: Phase, cmds: seq<Command>): Phase
    decreases |cmds|
  {
    if cmds == [] then p else AfterAll(After(p, cmds[0]), cmds[1..])
  }

  /**
   * Reference transition table of the user lifecycle: a new user goes to
   * the pose wait (or straight to calibration when no pose is needed), a
   * detected pose to calibration (when a pose is needed at all), success to tracking, a failure other than
   * a manual abort back to the start of calibration; everything else,
   * including a manual abort, a loss and a re-entry, changes nothing.
   */
  function Transition(needPose: bool, p: Phase, e: Event): Phase
  {
    match e
    case NewUser(_) => if needPose then AwaitingPose else Calibrating
    case PoseDetected(_, _) => if needPose then Calibrating else p
    case CalibrationComplete(_, Ok) => Tracking
    case CalibrationComplete(_, OtherFailure) => if needPose then AwaitingPose else Calibrating
    case _ => p
  }

  /** The phases visited along a sequence of notifications, one per notification. */
  function Trace(needPose: bool, p: Phase, events: seq<Event>): (t: seq<Phase>)
    ensures |t| == |events|
    decreases |events|
  {
    if events == [] then []
    else
      var q := Transition(needPose, p, events[0]);
      [q] + Trace(needPose, q, events[1..])
  }

  /** The phase reached after a sequence of notifications. */
  function Replay(needPose: bool, p: Phase, events: seq<Event>): Phase
  {
    if events == [] then p
    else Transition(needPose, Replay(needPose, p, events[..|events| - 1]), events[|events| - 1])
  }

  /** The commands of one notification move the phase exactly as the table says. */
  lemma HandleFollowsTable(needPose: bool, pose: string, p: Phase, e: Event)
    ensures AfterAll(p, Handle(needPose, pose, e)) == Transition(needPose, p, e)
  {
    var cmds := Handle(needPose, pose, e);
    if |cmds| == 2 {
      var rest := cmds[1..];
      assert rest[1..] == [];
      assert AfterAll(After(p, cmds[0]), rest) == AfterAll(After(After(p, cmds[0]), rest[0]), rest[1..]);
    } else if |cmds| == 1 {
      assert cmds[1..] == [];
    }
  }

  /** Applying two command sequences one after the other is applying their concatenation. */
  lemma {:induction false} AfterAllAppend(p: Phase, a: seq<Command>, b: seq<Command>)
    ensures AfterAll(p, a + b) == AfterAll(AfterAll(p, a), b)
    decreases |a|
  {
    if a == [] {
      assert a + b == b;
    } else {
      assert (a + b)[0] == a[0];
      assert (a + b)[1..] == a[1..] + b;
      AfterAllAppend(After(p, a[0]), a[1..], b);
    }
  }

  /** The commands of a whole run move the phase as the table replayed over the run. */
  lemma {:induction false} RunFollowsTable(needPose: bool, pose: string, p: Phase, events: seq<Event>)
    ensures AfterAll(p, Run(needPose, pose, events)) == Replay(needPose, p, events)
  {
    if events != [] {
      var last := |events| - 1;
      RunFollowsTable(needPose, pose, p, events[..last]);
      AfterAllAppend(p, Run(needPose, pose, events[..last]), Handle(needPose, pose, events[last]));
      HandleFollowsTable(needPose, pose, Replay(needPose, p, events[..last]), events[last]);
    }
  }

  /** Replaying a notification at the front is replaying the rest from the phase it leads to. */
  lemma {:induction false} ReplayCons(needPose: bool, p: Phase, e: Event, rest: seq<Event>)
    ensures Replay(needPose, p, [e] + rest) == Replay(needPose, Transition(needPose, p, e), rest)
    decreases |rest|
  {
    if rest == [] {
      assert ([e] + rest)[..0] == [];
    } else {
      var init := rest[..|rest| - 1];
      ReplayCons(needPose, p, e, init);
      assert ([e] + rest)[..|rest|] == [e] + init;
    }
  }

  /** The k-th phase of the trace is the phase replayed over the first k + 1 notifications. */
  lemma {:induction false} TraceIsReplay(needPose: bool, p: Phase, events: seq<Event>, k: nat)
    requires k < |events|
    ensures Trace(needPose, p, events)[k] == Replay(needPose, p, events[..k + 1])
    decreases k
  {
    var q := Transition(needPose, p, events[0]);
    assert events[..k + 1] == [events[0]] + events[1..][..k];
    ReplayCons(needPose, p, events[0], events[1..][..k]);
    if k == 0 {
      assert Replay(needPose, q, []) == q;
    } else {
      TraceIsReplay(needPose, q, events[1..], k - 1);
    }
  }

  /**
   * The trace is the phase the issued commands lead to: its k-th entry is
   * where the commands of the first k + 1 notifications take the user.
   */
  lemma TraceFollowsRun(needPose: bool, pose: string, p: Phase, events: seq<Event>, k: nat)
    requires k < |events|
    ensures Trace(needPose, p, events)[k] == AfterAll(p, Run(needPose, pose, events[..k + 1]))
  {
    TraceIsReplay(needPose, p, events, k);
    RunFollowsTable(needPose, pose, p, events[..k + 1]);
  }

  /**
   * The tracker's side of the protocol: it reports a detected pose only to a
   * user waiting for one, and a calibration start or end only to a user
   * being calibrated.
   */
  predicate Delivers(p: Phase, e: Event)
  {
    (e.PoseDetected? ==> p == AwaitingPose)
    && (e.CalibrationStart? || e.CalibrationComplete? ==> p == Calibrating)
  }

  /** Every notification of the sequence respects the protocol at the phase it arrives in. */
  predicate Respects(needPose: bool, p: Phase, events: seq<Event>)
    decreases |events|
  {
    events != [] ==>
      Delivers(p, events[0]) && Respects(needPose, Transition(needPose, p, events[0]), events[1..])
  }

  /**
   * Under the tracker's protocol, a user starting idle reaches Tracking only
   * after passing through Calibrating.
   */
  lemma {:induction false} TrackingNeedsCalibrating(needPose: bool, p: Phase, events: seq<Event>, k: nat)
    requires p != Tracking && Respects(needPose, p, events)
    requires k < |events| && Trace(needPose, p, events)[k] == Tracking
    ensures p == Calibrating || exists j :: 0 <= j < k && Trace(needPose, p, events)[j] == Calibrating
    decreases k
  {
    if p != Calibrating {
      var t := Trace(needPose, p, events);
      var q := Transition(needPose, p, events[0]);
      assert Delivers(p, events[0]);
      assert t[0] == q;
      if q == Calibrating {
        assert 0 < k;
      } else {
        TrackingNeedsCalibrating(needPose, q, events[1..], k - 1);
        var tail := Trace(needPose, q, events[1..]);
        assert forall j :: 0 <= j < |tail| ==> t[j + 1] == tail[j];
        var j :| 0 <= j < k - 1 && tail[j] == Calibrating;
        assert t[j + 1] == Calibrating;
      }
    }
  }

  /** Unfolding the trace and the protocol check by one notification. */
  lemma TraceCons(needPose: bool, p: Phase, e: Event, rest: seq<Event>)
    ensures Trace(needPose, p, [e] + rest)
      == [Transition(needPose, p, e)] + Trace(needPose, Transition(needPose, p, e), rest)
    ensures Respects(needPose, p, [e] + rest)
      == (Delivers(p, e) && Respects(needPose, Transition(needPose, p, e), rest))
  {
    assert ([e] + rest)[0] == e && ([e] + rest)[1..] == rest;
  }

  /**
   * The uninterrupted success path with a calibration pose: the user goes
   * Idle, AwaitingPose, Calibrating, Tracking, and these exact commands are issued.
   */
  lemma PoseSuccessPath(u: UserId, detected: string, events: seq<Event>)
    requires events == [NewUser(u), PoseDetected(u, detected), CalibrationStart(u), CalibrationComplete(u, Ok)]
    ensures Respects(true, Idle, events)
    ensures Trace(true, Idle, events) == [AwaitingPose, Calibrating, Calibrating, Tracking]
  {
    var e3 := [CalibrationComplete(u, Ok)];
    var e2 := [CalibrationStart(u)] + e3;
    var e1 := [PoseDetected(u, detected)] + e2;
    assert events == [NewUser(u)] + e1;
    TraceCons(true, Calibrating, CalibrationComplete(u, Ok), []);
    assert e3 == [CalibrationComplete(u, Ok)] + [];
    TraceCons(true, Calibrating, CalibrationStart(u), e3);
    TraceCons(true, AwaitingPose, PoseDetected(u, detected), e2);
    TraceCons(true, Idle, NewUser(u), e1);
  }

  /** The commands issued along the success path with a calibration pose. */
  lemma PoseSuccessCommands(pose: string, u: UserId, detected: string, events: seq<Event>)
    requires events == [NewUser(u), PoseDetected(u, detected), CalibrationStart(u), CalibrationComplete(u, Ok)]
    ensures Run(true, pose, events)
      == [StartPoseDetection(pose, u), StopPoseDetection(u), RequestCalibration(u, true), StartTracking(u)]
  {
    var p1 := [NewUser(u)];
    var p2 := p1 + [PoseDetected(u, detected)];
    var p3 := p2 + [CalibrationStart(u)];
    assert p1 == [] + p1 && events == p3 + [CalibrationComplete(u, Ok)];
    RunSnoc(true, pose, [], NewUser(u));
    RunSnoc(true, pose, p1, PoseDetected(u, detected));
    RunSnoc(true, pose, p2, CalibrationStart(u));
    RunSnoc(true, pose, p3, CalibrationComplete(u, Ok));
  }

  /** Without a calibration pose: Calibrating, then Tracking. */
  lemma DirectSuccessPath(u: UserId, events: seq<Event>)
    requires events == [NewUser(u), CalibrationStart(u), CalibrationComplete(u, Ok)]
    ensures Respects(false, Idle, events)
    ensures Trace(false, Idle, events) == [Calibrating, Calibrating, Tracking]
  {
    var e2 := [CalibrationComplete(u, Ok)];
    var e1 := [CalibrationStart(u)] + e2;
    assert events == [NewUser(u)] + e1;
    TraceCons(false, Calibrating, CalibrationComplete(u, Ok), []);
    assert e2 == [CalibrationComplete(u, Ok)] + [];
    TraceCons(false, Calibrating, CalibrationStart(u), e2);
    TraceCons(false, Idle, NewUser(u), e1);
  }

  /** The commands issued along the success path without a calibration pose. */
  lemma DirectSuccessCommands(pose: string, u: UserId, events: seq<Event>)
    requires events == [NewUser(u), CalibrationStart(u), CalibrationComplete(u, Ok)]
    ensures Run(false, pose, events) == [RequestCalibration(u, true), StartTracking(u)]
  {
    var p1 := [NewUser(u)];
    var p2 := p1 + [CalibrationStart(u)];
    assert p1 == [] + p1 && events == p2 + [CalibrationComplete(u, Ok)];
    RunSnoc(false, pose, [], NewUser(u));
    RunSnoc(false, pose, p1, CalibrationStart(u));
    RunSnoc(false, pose, p2, CalibrationComplete(u, Ok));
  }

  /**
   * A user that is lost and then found again as a new user gets a fresh
   * calibration, whatever was issued before.
   */
  lemma NewUserRestarts(needPose: bool, pose: string, p: Phase, events: seq<Event>, u: UserId)
    ensures Run(needPose, pose, events + [LostUser(u), NewUser(u)])
      == Run(needPose, pose, events) + BeginCalibration(needPose, pose, u)
    ensures AfterAll(p, Run(needPose, pose, events + [LostUser(u), NewUser(u)]))
      == (if needPose then AwaitingPose else Calibrating)
  {
    var lost := events + [LostUser(u)];
    var all := lost + [NewUser(u)];
    assert events + [LostUser(u), NewUser(u)] == all;
    RunSnoc(needPose, pose, events, LostUser(u));
    RunSnoc(needPose, pose, lost, NewUser(u));
    RunFollowsTable(needPose, pose, p, all);
    assert all[..|all| - 1] == lost;
  }

  /**
   * A manual abort issues nothing and leaves the phase as it was; since the
   * handlers keep no state, a later failure of another kind for the same
   * user would be retried.
   */
  lemma ManualAbortIsStateless(needPose: bool, pose: string, u: UserId)
    ensures Handle(needPose, pose, CalibrationComplete(u, ManualAbort)) == []
    ensures Run(needPose, pose, [CalibrationComplete(u, ManualAbort), CalibrationComplete(u, OtherFailure)])
      == (if needPose then [StartPoseDetection(pose, u)] else [RequestCalibration(u, true)])
  {
    var p1 := [CalibrationComplete(u, ManualAbort)];
    assert p1 == [] + p1;
    RunSnoc(needPose, pose, [], CalibrationComplete(u, ManualAbort));
    RunSnoc(needPose, pose, p1, CalibrationComplete(u, OtherFailure));
  }
}
