/** The supervisor is never stuck: a cancelled run ends, and a graph that is wanted reaches disk. */
module SupervisorProgress {
  import opened Prelude
  import opened Sections
  import opened Supervisor
  import opened SupervisorLaws
  import opened SupervisorWake
  import opened SupervisorSleep
  import opened SupervisorTheorems

  /** A step of the supervisor itself. */
  predicate Own(a: Action) {
    OfSession(a) || OfWait(a) || a.Decide? || a.CheckToken?
  }

  predicate AllOwn(actions: seq<Action>) {
    forall i :: 0 <= i < |actions| ==> Own(actions[i])
  }

  // ---------------------------------------------------------------------------------------------
  // Stopping
  // ---------------------------------------------------------------------------------------------

  /** Steps at most to the end of a cancelled run. */
  function StepsToEnd(l: Loop): nat {
    match l
    case Idle => 0
    case Exiting => 1
    case Blocked(_, _, _, _) => 2
    case Settled(_, _, _, _, _) => 2
    case Ended(_, _, _) => 3
    case Session(_, _, phase) => if phase.Accepted? then 5 else 4
    case Between => 5
    case Top => 6
    case Woken(_, _, _, _) => 7
  }

  /** A step on the way to the end. */
  function StepToEnd(l: Loop): Action
    requires !l.Idle?
  {
    match l
    case Exiting => ExitLoop
    case Blocked(_, _, _, _) => NoticeCancel
    case Settled(_, _, _, _, _) => Decide
    case Ended(_, _, _) => CollectSession
    case Session(_, _, phase) => if phase.Accepted? then AnnounceLoad else EndSession(false, NoError)
    case Between => BeginAttempt
    case Top => ReadEpochs
    case Woken(_, _, _, _) => CheckToken
  }

  lemma EndComesNearer(c: Config, s: State)
    requires RunCancelled(s) && !s.loop.Idle?
    ensures Own(StepToEnd(s.loop)) && Enabled(s, StepToEnd(s.loop))
    ensures
      var t := Apply(c, s, StepToEnd(s.loop));
      && RunCancelled(t) && StepsToEnd(t.loop) < StepsToEnd(s.loop)
      && (t.loop.Idle? ==> !t.m.active)
  {
  }

  lemma {:induction false} StepsTo(c: Config, s: State) returns (more: seq<Action>)
    requires RunCancelled(s) && !s.loop.Idle?
    ensures AllOwn(more) && |more| <= StepsToEnd(s.loop)
    ensures RunFrom(c, s, more).loop.Idle? && !RunFrom(c, s, more).m.active
    decreases StepsToEnd(s.loop)
  {
    var a := StepToEnd(s.loop);
    var t := Apply(c, s, a);
    EndComesNearer(c, s);
    var rest := [];
    if !t.loop.Idle? {
      rest := StepsTo(c, t);
    }
    more := [a] + rest;
    RunFirst(c, s, a, rest);
  }

  /**
   A run whose context is cancelled can always end by at most seven steps of its own supervisor,
   wherever that is and whatever else goes on; it is then inactive, and a new run can start.
   */
  lemma CancelledRunEnds(c: Config, actions: seq<Action>) returns (more: seq<Action>)
    requires RunCancelled(Run(c, actions)) && !Run(c, actions).loop.Idle?
    ensures AllOwn(more) && |more| <= 7
    ensures Run(c, actions + more).loop.Idle? && !Run(c, actions + more).m.active
  {
    more := StepsTo(c, Run(c, actions));
    RunSplits(c, actions, more);
  }

  /**
   So a stop, whose lock section and cancellation are two steps, can always be followed by the end of
   the run; and no graph of the run is published after the cancellation.
   */
  lemma StopEndsRun(c: Config, actions: seq<Action>) returns (more: seq<Action>)
    requires !Run(c, actions).loop.Idle? && Run(c, actions).m.startId > 0
    ensures
      var stop := [StopLock, CancelRun(Run(c, actions).m.startId)];
      && AllOwn(more) && |more| <= 7
      && StopSeen(Run(c, actions + stop).history) && RunCancelled(Run(c, actions + stop))
      && Run(c, actions + stop + more).loop.Idle? && !Run(c, actions + stop + more).m.active
  {
    var s := Run(c, actions);
    var stop := [StopLock, CancelRun(s.m.startId)];
    RunSplits(c, actions, stop);
    RunTwo(c, s, StopLock, CancelRun(s.m.startId));
    assert Apply(c, s, StopLock).history == After(s.history, StopRequested);
    more := CancelledRunEnds(c, actions + stop);
  }

  lemma CancelledRunPublishesNothing(c: Config, actions: seq<Action>)
    requires Enabled(Run(c, actions), PublishGraph) && RunCancelled(Run(c, actions))
    ensures
      var s, t := Run(c, actions), Apply(c, Run(c, actions), PublishGraph);
      t.history == s.history && t.m == s.m && t.loop == s.loop.(phase := Refused)
  {
  }

  // ---------------------------------------------------------------------------------------------
  // Starting and attempting
  // ---------------------------------------------------------------------------------------------

  /** While a run is active a start does nothing; otherwise a run begins afresh, with every save released. */
  lemma StartDecided(c: Config, actions: seq<Action>)
    ensures
      var s, t := Run(c, actions), Apply(c, Run(c, actions), StartRun);
      if !s.loop.Idle? then t == s
      else
        && t.history == After(s.history, RunStarted(Bumps(s.history)))
        && t.loop.Top? && !t.token && t.failures == 0 && !t.notified
        && t.m.active && t.m.startId == s.m.startId + 1 && !t.m.refreshPending
        && t.m.releasedEpoch == t.m.refreshEpoch == s.m.refreshEpoch
        && t.m.generation == s.m.generation && t.m.authority == s.m.authority
  {
    PublicationRun(c, actions);
  }

  /**
   The supervisor waits before an attempt exactly while a save is not released, and past the latest
   release; otherwise the attempt that follows takes the number of saves and stops as its epoch.
   */
  lemma AttemptDecided(c: Config, actions: seq<Action>)
    ensures
      var s := Run(c, actions);
      && (s.loop.Top? ==>
            Apply(c, s, ReadEpochs) ==
            s.(loop := if Bumps(s.history) > LatestReleased(s.history)
            then Blocked(AtTop, LatestReleased(s.history), false, NoError) else Between))
      && (s.loop.Between? ==>
            && Apply(c, s, BeginAttempt).history == After(s.history, Attempt(Bumps(s.history)))
            && Apply(c, s, BeginAttempt).loop == Session(Bumps(s.history), s.sessions, Loading)
            && !SessionCancelledAlone(Apply(c, s, BeginAttempt), s.sessions))
  {
    PublicationRun(c, actions);
    RunningRun(c, actions);
  }

  /** The session itself was cancelled, and not just its run. */
  predicate SessionCancelledAlone(s: State, session: nat) {
    session in s.cancelledSessions
  }

  /** The session whose cancel function a timer would be handed. */
  ghost predicate RunningInv(s: State) {
    && (forall id :: id in s.cancelledSessions ==> id < s.sessions)
    && (forall e :: e in s.callbacks && s.callbacks[e].session.Some? ==> s.callbacks[e].session.value < s.sessions)
    && match s.loop
       case Session(_, id, _) => s.m.sessionCancel == Some(id) && id < s.sessions
       case Ended(_, _, _) => s.m.sessionCancel.Some? && s.m.sessionCancel.value < s.sessions
       case _ => s.m.sessionCancel.None?
  }

  lemma RunningOutside(c: Config, s: State, a: Action)
    requires RunningInv(s) && Enabled(s, a) && (OfClient(a) || OfTimer(a))
             && (a.StartRun? ==> s.m.active || s.loop.Idle?)
    ensures RunningInv(Apply(c, s, a))
  {
  }

  lemma RunningInside(c: Config, s: State, a: Action)
    requires RunningInv(s) && Enabled(s, a) && (OfSession(a) || OfWait(a))
    ensures RunningInv(Apply(c, s, a))
  {
  }

  lemma RunningVerdict(c: Config, s: State, a: Action)
    requires RunningInv(s) && Enabled(s, a) && (a.Decide? || a.CheckToken?)
    ensures RunningInv(Apply(c, s, a))
  {
  }

  lemma {:induction false} RunningRun(c: Config, actions: seq<Action>)
    ensures RunningInv(Run(c, actions))
  {
    if actions != [] {
      var s, a := Run(c, actions[..|actions| - 1]), actions[|actions| - 1];
      RunningRun(c, actions[..|actions| - 1]);
      PublicationRun(c, actions[..|actions| - 1]);
      if Enabled(s, a) {
        if OfClient(a) || OfTimer(a) {
          RunningOutside(c, s, a);
        } else if OfSession(a) || OfWait(a) {
          RunningInside(c, s, a);
        } else {
          RunningVerdict(c, s, a);
        }
      }
    }
  }

  // ---------------------------------------------------------------------------------------------
  // What a release does
  // ---------------------------------------------------------------------------------------------

  /** The session that is running, or has just ended, if any. */
  ghost predicate Runs(s: State, session: Option<nat>) {
    match s.loop
    case Session(_, id, _) => session == Some(id)
    case Ended(_, _, _) => session.Some?
    case _ => session.None?
  }

  /**
   The callback of a timer that releases is for the run that is active and the session that runs; it
   cancels that session and no other, and then puts a token into the slot of its run.
   */
  lemma ReleaseIsCarriedOut(c: Config, actions: seq<Action>, epoch: nat)
    requires Enabled(Run(c, actions), FireTimer(epoch))
    requires Releases(Run(c, actions).m, epoch, Run(c, actions).now)
    ensures
      var s := Run(c, actions);
      var fired := Apply(c, s, FireTimer(epoch));
      && epoch in fired.callbacks && Runs(s, fired.callbacks[epoch].session)
      && Enabled(fired, CancelSession(epoch))
      && var cancelled := Apply(c, fired, CancelSession(epoch));
      && (forall id :: id in cancelled.cancelledSessions <==>
                       id in s.cancelledSessions || fired.callbacks[epoch].session == Some(id))
      && (s.loop.Session? ==> SessionCancelled(cancelled, s.loop.session))
      && Enabled(cancelled, SendWake(epoch))
      && Apply(c, cancelled, SendWake(epoch)).token && epoch !in Apply(c, cancelled, SendWake(epoch)).callbacks
  {
    RunningRun(c, actions);
  }

  /** A callback of an earlier run leaves the slot of the current run as it is. */
  lemma StaleCallback(c: Config, s: State, epoch: nat)
    requires Enabled(s, SendWake(epoch)) && s.callbacks[epoch].run != s.m.startId
    ensures Apply(c, s, SendWake(epoch)) == s.(callbacks := s.callbacks - {epoch})
  {
  }

  // ---------------------------------------------------------------------------------------------
  // Tokens
  // ---------------------------------------------------------------------------------------------

  /** How often a wake token was sent, and how often one was received. */
  ghost function Sent(c: Config, actions: seq<Action>): nat {
    if actions == [] then 0
    else
      var before, a := actions[..|actions| - 1], actions[|actions| - 1];
      Sent(c, before) + if a.SendWake? && Enabled(Run(c, before), a) then 1 else 0
  }

  ghost function Received(c: Config, actions: seq<Action>): nat {
    if actions == [] then 0
    else
      var before, a := actions[..|actions| - 1], actions[|actions| - 1];
      Received(c, before) + if a.ReceiveWake? && Enabled(Run(c, before), a) then 1 else 0
  }

  lemma TokenStep(c: Config, s: State, a: Action)
    requires Enabled(s, a)
    ensures
      var t := Apply(c, s, a);
      if a.SendWake? then true
      else if a.ReceiveWake? then s.token && !t.token
      else t.token ==> s.token
  {
  }

  /** No supervisor is woken more often than tokens were sent; the one in the slot has not been received. */
  lemma {:induction false} TokensAreConserved(c: Config, actions: seq<Action>)
    ensures Received(c, actions) + (if Run(c, actions).token then 1 else 0) <= Sent(c, actions)
  {
    if actions != [] {
      var before, a := actions[..|actions| - 1], actions[|actions| - 1];
      TokensAreConserved(c, before);
      if Enabled(Run(c, before), a) {
        TokenStep(c, Run(c, before), a);
      }
    }
  }

  /** How a session may end in each phase. */
  lemma OutcomesByPhase(s: State, loaded: bool, error: SessionError)
    requires s.loop.Session?
    ensures Enabled(s, EndSession(loaded, error)) <==>
            match s.loop.phase
            case Loading => !loaded && (error.NoError? ==> SessionCancelled(s, s.loop.session))
            case Refused => !loaded && !error.Failure?
            case Accepted(_) => false
            case _ => error.NoError? ==> SessionCancelled(s, s.loop.session)
  {
  }

  // ---------------------------------------------------------------------------------------------
  // From a graph to its snapshot
  // ---------------------------------------------------------------------------------------------

  const INSTALLATION := [PublishGraph, AnnounceLoad, CapturePersist, InstallSnapshot]

  /** The session serves this generation, which has been published, announced and installed since. */
  ghost predicate InstalledSince(s: State, t: State, g: nat) {
    match s.loop
    case Session(_, _, _) =>
      && t.history == After(After(After(s.history, Event.Published(FromWorker, g)), LoadAnnounced(g)), Installed(g))
      && t.m.generation == g && t.m.authority.Runtime? && t.loop == s.loop.(phase := Serving) && !t.notified
    case _ => false
  }

  /**
   A graph that the history asks for is published, announced and installed on disk, one after the
   other, if the session goes on with nothing in between; so in every state that a run comes to.
   */
  lemma WantedGraphIsInstalled(c: Config, s: State)
    requires PublicationInv(c, s) && Enabled(s, PublishGraph) && Demanded(s)
    ensures InstalledSince(s, RunFrom(c, s, INSTALLATION), c.generation + Publications(s.history) + 1)
  {
    AdmittedIsDemanded(c, s);
    InstalledAtOnce(c, s);
  }

  lemma InstalledAtOnce(c: Config, s: State)
    requires Enabled(s, PublishGraph) && AdmitsRuntime(s.m, SessionCancelled(s, s.loop.session))
    ensures InstalledSince(s, RunFrom(c, s, INSTALLATION), s.m.generation + 1)
  {
    RunFour(c, s, PublishGraph, AnnounceLoad, CapturePersist, InstallSnapshot);
    var published := Step(c, s, PublishGraph);
    assert published.loop == s.loop.(phase := Accepted(s.m.generation + 1));
    var announced := Step(c, published, AnnounceLoad);
    assert announced.loop == s.loop.(phase := Announced(s.m.generation + 1)) && announced.m == published.m;
    assert SessionCancelled(announced, s.loop.session) == SessionCancelled(s, s.loop.session);
  }
}
