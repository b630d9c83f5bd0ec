/** When a supervisor gives up, and what a save in the gap between two lock sections does to it. */
module SupervisorLife {
  import opened Prelude
  import opened Sections
  import opened Supervisor
  import opened SupervisorLaws
  import opened SupervisorWake
  import opened SupervisorSleep

  // ---------------------------------------------------------------------------------------------
  // Runs, sessions and releases
  // ---------------------------------------------------------------------------------------------

  /** A timer callback was handed the cancel function of this session. */
  ghost predicate Targeted(s: State, session: nat) {
    session in s.cancelledSessions || exists e :: e in s.callbacks && s.callbacks[e].session == Some(session)
  }

  /** Only sessions and runs already begun can be cancelled. */
  ghost predicate IdsInv(s: State) {
    && (s.m.sessionCancel.Some? ==> s.m.sessionCancel.value < s.sessions)
    && (forall id :: id in s.cancelledSessions ==> id < s.sessions)
    && (forall e :: e in s.callbacks && s.callbacks[e].session.Some? ==> s.callbacks[e].session.value < s.sessions)
    && (forall run :: run in s.cancelledRuns ==> run <= s.m.startId)
  }

  /** A session is cancelled only by a release that came after it began, or with its run. */
  ghost predicate TargetInv(s: State) {
    s.loop.Session? ==>
      && s.m.activeEpoch == s.loop.epoch <= s.m.refreshEpoch
      && s.m.sessionCancel == Some(s.loop.session)
      && (Targeted(s, s.loop.session) ==> s.m.refreshPending || s.loop.epoch < s.m.refreshEpoch)
  }

  /** The newest epoch is released once its timer has run, and only then if the run began settled. */
  ghost predicate ReleaseInv(s: State) {
    !StopSeen(s.history) && s.m.active ==>
      && (s.m.refreshEpoch !in s.armed ==> s.m.releasedEpoch == s.m.refreshEpoch)
      && (RunBeganSettled(s.history) && s.m.refreshEpoch in s.armed ==> s.m.releasedEpoch < s.m.refreshEpoch)
  }

  ghost predicate BeganInv(s: State) {
    !StopSeen(s.history) && RunBeganSettled(s.history) ==>
      (AttemptBeganSettled(s.history) == AttemptBeganReleased(s.history))
  }

  /** A session that ends without an error leaves a reason to try again. */
  ghost predicate RetryInv(s: State) {
    match s.loop
    case Idle => s.m.startId > 0 ==> CleanupFailedInRun(s.history)
    case Session(epoch, _, phase) =>
      && (phase.Loading? && epoch == s.m.refreshEpoch ==> s.m.releasedEpoch == epoch)
      && (phase.Refused? ==> s.m.refreshPending || epoch < s.m.refreshEpoch)
    case Ended(epoch, _, error) =>
      && (error.NoError? ==> s.m.refreshPending || epoch < s.m.refreshEpoch)
      && (error.CleanupFailure? ==> CleanupFailedInRun(s.history))
    case Settled(epoch, current, refresh, _, error) =>
      && (error.NoError? ==> refresh || epoch < current)
      && (error.CleanupFailure? ==> CleanupFailedInRun(s.history))
    case Blocked(_, _, _, error) => error.CleanupFailure? ==> CleanupFailedInRun(s.history)
    case Woken(_, _, _, error) => error.CleanupFailure? ==> CleanupFailedInRun(s.history)
    case Exiting => CleanupFailedInRun(s.history)
    case _ => true
  }

  ghost predicate BaseInv(s: State) {
    TimerInv(s) && WakeGuarantee(s) && IdsInv(s) && TargetInv(s) && ReleaseInv(s) && BeganInv(s)
  }

  /** Neither stopped nor cancelled. */
  ghost predicate Untouched(s: State) {
    !StopSeen(s.history) && !RunCancelled(s)
  }

  lemma IdsStep(c: Config, s: State, a: Action)
    requires IdsInv(s) && Enabled(s, a)
    ensures IdsInv(Apply(c, s, a))
  {
    if OfTimer(a) {
      IdsTimer(c, s, a);
    } else if OfClient(a) {
      IdsClient(c, s, a);
    } else if OfSession(a) {
      IdsSession(c, s, a);
    } else {
      IdsWait(c, s, a);
    }
  }

  lemma IdsTimer(c: Config, s: State, a: Action)
    requires IdsInv(s) && Enabled(s, a) && OfTimer(a)
    ensures IdsInv(Apply(c, s, a))
  {
  }

  lemma IdsClient(c: Config, s: State, a: Action)
    requires IdsInv(s) && Enabled(s, a) && OfClient(a)
    ensures IdsInv(Apply(c, s, a))
  {
  }

  lemma IdsSession(c: Config, s: State, a: Action)
    requires IdsInv(s) && Enabled(s, a) && OfSession(a)
    ensures IdsInv(Apply(c, s, a))
  {
  }

  lemma IdsWait(c: Config, s: State, a: Action)
    requires IdsInv(s) && Enabled(s, a) && !OfTimer(a) && !OfClient(a) && !OfSession(a)
    ensures IdsInv(Apply(c, s, a))
  {
    var t := Apply(c, s, a);
    assert t.callbacks == s.callbacks && t.sessions == s.sessions;
    assert t.cancelledSessions == s.cancelledSessions && t.cancelledRuns == s.cancelledRuns;
  }

  lemma TargetTimer(c: Config, s: State, a: Action)
    requires TargetInv(s) && Enabled(s, a) && OfTimer(a)
    ensures TargetInv(Apply(c, s, a))
  {
    var t := Apply(c, s, a);
    if s.loop.Session? && Targeted(t, s.loop.session) && !t.m.refreshPending {
      assert Targeted(s, s.loop.session) by {
        if s.loop.session !in t.cancelledSessions {
          var e :| e in t.callbacks && t.callbacks[e].session == Some(s.loop.session);
          assert e in s.callbacks && s.callbacks[e].session == Some(s.loop.session);
        } else if s.loop.session !in s.cancelledSessions {
          assert s.callbacks[a.epoch].session == Some(s.loop.session);
        }
      }
    }
  }

  /** The cancel functions handed out stay the same. */
  lemma TargetFrame(s: State, t: State)
    requires TargetInv(s) && t.callbacks == s.callbacks && t.cancelledSessions == s.cancelledSessions
    requires t.loop.Session? ==>
               && s.loop.Session? && t.loop.session == s.loop.session && t.loop.epoch == s.loop.epoch
               && t.m.activeEpoch == s.m.activeEpoch && t.m.sessionCancel == s.m.sessionCancel
               && t.m.refreshEpoch >= s.m.refreshEpoch
               && (t.m.refreshEpoch == s.m.refreshEpoch ==> t.m.refreshPending == s.m.refreshPending)
    ensures TargetInv(t)
  {
  }

  lemma TargetClient(c: Config, s: State, a: Action)
    requires IdsInv(s) && TargetInv(s) && (s.m.active <==> !s.loop.Idle?) && Enabled(s, a) && OfClient(a)
    ensures TargetInv(Apply(c, s, a))
  {
    TargetFrame(s, Apply(c, s, a));
  }

  lemma TargetSession(c: Config, s: State, a: Action)
    requires IdsInv(s) && TargetInv(s) && Enabled(s, a) && OfSession(a) && !a.BeginAttempt?
    ensures TargetInv(Apply(c, s, a))
  {
    TargetFrame(s, Apply(c, s, a));
  }

  lemma TargetWait(c: Config, s: State, a: Action)
    requires IdsInv(s) && TargetInv(s) && Enabled(s, a) && !OfTimer(a) && !OfClient(a) && !OfSession(a)
    ensures TargetInv(Apply(c, s, a))
  {
    var t := Apply(c, s, a);
    assert !t.loop.Session?;
  }

  lemma TargetStep(c: Config, s: State, a: Action)
    requires IdsInv(s) && TargetInv(s) && (s.m.active <==> !s.loop.Idle?) && Enabled(s, a)
    ensures TargetInv(Apply(c, s, a))
  {
    if OfTimer(a) {
      TargetTimer(c, s, a);
    } else if a.BeginAttempt? {
      assert !Targeted(s, s.sessions);
    } else if OfClient(a) {
      TargetClient(c, s, a);
    } else if OfSession(a) {
      TargetSession(c, s, a);
    } else {
      TargetWait(c, s, a);
    }
  }

  // ---------------------------------------------------------------------------------------------
  // Releases
  // ---------------------------------------------------------------------------------------------

  /** What the release invariants read of the history is unchanged, unless the event is one of these. */
  predicate Marks(e: Event) {
    e.RunStarted? || e.StopRequested? || e.Attempt? || e.Saved? || e.Released? || e.TimerSpent?
  }

  lemma UnmarkedReads(h: History, e: Event)
    requires !Marks(e)
    ensures StopSeen(After(h, e)) == StopSeen(h) && RunBeganSettled(After(h, e)) == RunBeganSettled(h)
    ensures AttemptBeganSettled(After(h, e)) == AttemptBeganSettled(h)
    ensures AttemptBeganReleased(After(h, e)) == AttemptBeganReleased(h)
  {
  }

  ghost predicate ReleasesInv(s: State) {
    TimerInv(s) && ReleaseInv(s) && BeganInv(s)
  }

  lemma ReleasesClient(c: Config, s: State, a: Action)
    requires ReleasesInv(s) && Enabled(s, a) && OfClient(a)
    ensures ReleaseInv(Apply(c, s, a)) && BeganInv(Apply(c, s, a))
  {
    var t := Apply(c, s, a);
    assert t.history == s.history || t.history.past == s.history;
  }

  lemma ReleasesTimer(c: Config, s: State, a: Action)
    requires ReleasesInv(s) && Enabled(s, a) && OfTimer(a)
    ensures ReleaseInv(Apply(c, s, a)) && BeganInv(Apply(c, s, a))
  {
    var t := Apply(c, s, a);
    assert t.history == s.history || t.history.past == s.history;
  }

  lemma ReleasesSession(c: Config, s: State, a: Action)
    requires ReleasesInv(s) && Enabled(s, a) && OfSession(a)
    ensures ReleaseInv(Apply(c, s, a)) && BeganInv(Apply(c, s, a))
  {
    var t := Apply(c, s, a);
    assert t.history == s.history || t.history.past == s.history;
  }

  /** Nothing that the release invariants speak of changes. */
  lemma ReleasesFrame(s: State, t: State)
    requires ReleaseInv(s) && BeganInv(s)
    requires t.armed == s.armed && t.m.refreshEpoch == s.m.refreshEpoch && t.m.releasedEpoch == s.m.releasedEpoch
    requires t.m.active ==> s.m.active
    requires StopSeen(t.history) == StopSeen(s.history) && RunBeganSettled(t.history) == RunBeganSettled(s.history)
    requires AttemptBeganSettled(t.history) == AttemptBeganSettled(s.history)
    requires AttemptBeganReleased(t.history) == AttemptBeganReleased(s.history)
    ensures ReleaseInv(t) && BeganInv(t)
  {
  }

  lemma WaitFrame(c: Config, s: State, a: Action)
    requires Enabled(s, a) && (OfWait(a) || a.Decide? || a.CheckToken?)
    ensures
      var t := Apply(c, s, a);
      && t.armed == s.armed && t.m.refreshEpoch == s.m.refreshEpoch && t.m.releasedEpoch == s.m.releasedEpoch
      && (t.m.active ==> s.m.active)
  {
  }

  lemma ReleasesWait(c: Config, s: State, a: Action)
    requires ReleasesInv(s) && Enabled(s, a) && (OfWait(a) || a.Decide? || a.CheckToken?)
    ensures ReleaseInv(Apply(c, s, a)) && BeganInv(Apply(c, s, a))
  {
    WaitFrame(c, s, a);
    WaitReads(c, s, a);
    ReleasesFrame(s, Apply(c, s, a));
  }

  lemma WaitReads(c: Config, s: State, a: Action)
    requires Enabled(s, a) && (OfWait(a) || a.Decide? || a.CheckToken?)
    ensures
      var t := Apply(c, s, a);
      && StopSeen(t.history) == StopSeen(s.history) && RunBeganSettled(t.history) == RunBeganSettled(s.history)
      && AttemptBeganSettled(t.history) == AttemptBeganSettled(s.history)
      && AttemptBeganReleased(t.history) == AttemptBeganReleased(s.history)
  {
    if a.Decide? {
      var l := s.loop;
      EnactReads(s, Conclude(c, s.failures, s.notified, l.refresh, l.epoch, l.current, l.loaded, l.error));
    } else if a.CheckToken? {
      UnmarkedReads(s.history, RefreshTaken(Some(s.loop.site)));
      EnactReads(TakeRefresh(s), Resume(c, s));
    } else {
      UnmarkedReads(s.history, RefreshTaken(None));
    }
  }

  lemma EnactReads(s: State, v: Verdict)
    ensures
      var h := Enact(s, v).history;
      && StopSeen(h) == StopSeen(s.history) && RunBeganSettled(h) == RunBeganSettled(s.history)
      && AttemptBeganSettled(h) == AttemptBeganSettled(s.history)
      && AttemptBeganReleased(h) == AttemptBeganReleased(s.history)
  {
    UnmarkedReads(s.history, OutageAnnounced);
    if v.delay.Some? {
      UnmarkedReads(LogIf(s.history, v.outage, OutageAnnounced), BackedOff(v.delay.value));
    }
  }

  lemma BaseStep(c: Config, s: State, a: Action)
    requires BaseInv(s) && Enabled(s, a)
    ensures BaseInv(Apply(c, s, a))
  {
    WakeStep(c, s, a);
    IdsStep(c, s, a);
    TargetStep(c, s, a);
    if OfClient(a) {
      ReleasesClient(c, s, a);
    } else if OfTimer(a) {
      ReleasesTimer(c, s, a);
    } else if OfSession(a) {
      ReleasesSession(c, s, a);
    } else {
      ReleasesWait(c, s, a);
    }
  }

  lemma {:induction false} BaseRun(c: Config, actions: seq<Action>)
    ensures BaseInv(Run(c, actions))
  {
    if actions != [] {
      var s, a := Run(c, actions[..|actions| - 1]), actions[|actions| - 1];
      BaseRun(c, actions[..|actions| - 1]);
      if Enabled(s, a) {
        BaseStep(c, s, a);
      }
    }
  }

  /**
   A run that began settled loses no wake-up in any wait whose attempt, if the run has made one, began
   with a released epoch.
   */
  lemma NoLostWakeupOfReleased(c: Config, actions: seq<Action>)
    requires
      var h := Run(c, actions).history;
      !StopSeen(h) && RunBeganSettled(h) && AttemptBeganReleased(h)
    ensures !Oversleeps(Run(c, actions))
  {
    BaseRun(c, actions);
    NoLostWakeupOfSettled(c, actions);
  }

  // ---------------------------------------------------------------------------------------------
  // Going on after a session
  // ---------------------------------------------------------------------------------------------

  /** All that a step needs to keep a reason to try again. */
  ghost predicate Tries(s: State) {
    BaseInv(s) && Untouched(s) && RetryInv(s)
  }

  lemma RetryClient(c: Config, s: State, a: Action)
    requires Tries(s) && Enabled(s, a) && OfClient(a) && Untouched(Apply(c, s, a))
    ensures RetryInv(Apply(c, s, a))
  {
    var t := Apply(c, s, a);
    assert t.history == s.history || t.history.past == s.history;
  }

  lemma RetryTimer(c: Config, s: State, a: Action)
    requires Tries(s) && Enabled(s, a) && OfTimer(a)
    ensures RetryInv(Apply(c, s, a))
  {
    var t := Apply(c, s, a);
    assert t.loop == s.loop;
    assert t.history == s.history || t.history.past == s.history;
  }

  lemma RetrySession(c: Config, s: State, a: Action)
    requires Tries(s) && Enabled(s, a) && OfSession(a) && !a.BeginAttempt?
    ensures RetryInv(Apply(c, s, a))
  {
    var t := Apply(c, s, a);
    assert t.history == s.history || t.history.past == s.history;
    assert s.loop.session in s.cancelledSessions ==> Targeted(s, s.loop.session);
  }

  lemma RetryWait(c: Config, s: State, a: Action)
    requires Tries(s) && Enabled(s, a) && OfWait(a)
    ensures RetryInv(Apply(c, s, a))
  {
    var t := Apply(c, s, a);
    assert t.history == s.history || t.history.past == s.history;
  }

  /** A verdict that gives up, or waits with a cleanup failure, does so after one. */
  lemma EnactKeepsRetry(s: State, v: Verdict)
    requires v.loop.Top? || v.loop.Blocked? || v.loop.Exiting?
    requires v.loop.Exiting? || (v.loop.Blocked? && v.loop.error.CleanupFailure?) ==> CleanupFailedInRun(s.history)
    ensures RetryInv(Enact(s, v))
  {
    var announced := LogIf(s.history, v.outage, OutageAnnounced);
    assert CleanupFailedInRun(s.history) ==> CleanupFailedInRun(announced);
  }

  lemma RetryDecide(c: Config, s: State)
    requires Tries(s) && s.loop.Settled?
    ensures RetryInv(Apply(c, s, Decide))
  {
    var l := s.loop;
    if l.epoch == l.current || l.refresh {
      EnactKeepsRetry(s, Conclude(c, s.failures, s.notified, l.refresh, l.epoch, l.current, l.loaded, l.error));
    }
  }

  lemma RetryToken(c: Config, s: State)
    requires Tries(s) && s.loop.Woken?
    ensures RetryInv(Apply(c, s, CheckToken))
  {
    if WakeValid(s.m, s.loop.after, s.now) {
      EnactKeepsRetry(TakeRefresh(s), Resume(c, s));
    }
  }

  lemma RetryStep(c: Config, s: State, a: Action)
    requires Tries(s) && Enabled(s, a) && !a.BeginAttempt? && Untouched(Apply(c, s, a))
    ensures RetryInv(Apply(c, s, a))
  {
    if OfClient(a) {
      RetryClient(c, s, a);
    } else if OfTimer(a) {
      RetryTimer(c, s, a);
    } else if OfSession(a) {
      RetrySession(c, s, a);
    } else if OfWait(a) {
      RetryWait(c, s, a);
    } else if a.Decide? {
      RetryDecide(c, s);
    } else {
      RetryToken(c, s);
    }
  }

  ghost predicate RetryGuarantee(s: State) {
    Untouched(s) && AttemptBeganSettled(s.history) ==> RetryInv(s)
  }

  /** An attempt that begins settled has reason to try again whatever came before it. */
  lemma RetryBegin(c: Config, s: State)
    requires BaseInv(s) && s.loop.Between?
    ensures RetryGuarantee(Apply(c, s, BeginAttempt))
  {
    var t := Apply(c, s, BeginAttempt);
    assert StopSeen(t.history) == StopSeen(s.history);
  }

  /** Only a new run undoes a stop. */
  lemma StopStays(h: History, e: Event)
    requires !e.RunStarted? && !e.Attempt?
    ensures StopSeen(h) ==> StopSeen(After(h, e))
    ensures AttemptBeganSettled(After(h, e)) == AttemptBeganSettled(h)
  {
  }

  lemma BeforeStep(c: Config, s: State, a: Action)
    requires Enabled(s, a) && !a.BeginAttempt? && (a.StartRun? ==> s.m.active)
    requires Untouched(Apply(c, s, a)) && AttemptBeganSettled(Apply(c, s, a).history)
    ensures Untouched(s) && AttemptBeganSettled(s.history)
  {
    var t := Apply(c, s, a);
    assert t.m.startId == s.m.startId && t.cancelledRuns >= s.cancelledRuns;
    if OfWait(a) || a.Decide? || a.CheckToken? {
      WaitReads(c, s, a);
    } else if t.history != s.history {
      EventOf(c, s, a);
      StopStays(s.history, t.history.event);
    }
  }

  lemma EventOf(c: Config, s: State, a: Action)
    requires Enabled(s, a) && !a.BeginAttempt? && (a.StartRun? ==> s.m.active)
    requires OfClient(a) || OfTimer(a) || OfSession(a)
    requires Apply(c, s, a).history != s.history
    ensures
      var h := Apply(c, s, a).history;
      h.After? && h.past == s.history && !h.event.RunStarted? && !h.event.Attempt?
  {
  }

  lemma GuaranteeStep(c: Config, s: State, a: Action)
    requires BaseInv(s) && RetryGuarantee(s) && Enabled(s, a)
    ensures RetryGuarantee(Apply(c, s, a))
  {
    var t := Apply(c, s, a);
    if a.BeginAttempt? {
      RetryBegin(c, s);
    } else if a.StartRun? && !s.m.active {
      assert t.loop.Top?;
    } else if Untouched(t) && AttemptBeganSettled(t.history) {
      BeforeStep(c, s, a);
      RetryStep(c, s, a);
    }
  }

  lemma {:induction false} GuaranteeRun(c: Config, actions: seq<Action>)
    ensures RetryGuarantee(Run(c, actions))
  {
    if actions != [] {
      var s, a := Run(c, actions[..|actions| - 1]), actions[|actions| - 1];
      GuaranteeRun(c, actions[..|actions| - 1]);
      BaseRun(c, actions[..|actions| - 1]);
      if Enabled(s, a) {
        GuaranteeStep(c, s, a);
      }
    }
  }

  /**
   Unless it is stopped or its context cancelled, a started supervisor gives up only after a
   cleanup failure, if the latest attempt of its run began with the timer of its epoch settled.
   */
  lemma SupervisorPersists(c: Config, actions: seq<Action>)
    requires Untouched(Run(c, actions)) && AttemptBeganSettled(Run(c, actions).history)
    requires Starts(Run(c, actions).history) > 0
    ensures
      var s := Run(c, actions);
      s.loop.Exiting? || s.loop.Idle? ==> CleanupFailedInRun(s.history)
  {
    BaseRun(c, actions);
    GuaranteeRun(c, actions);
  }

  // ---------------------------------------------------------------------------------------------
  // Giving up silently
  // ---------------------------------------------------------------------------------------------

  ghost predicate GivesUp(s: State) {
    s.loop.Exiting? && !CleanupFailedInRun(s.history)
  }

  /** The session comes to its end and is judged, while time and timers go on; nobody saves, stops or cancels. */
  predicate WindsUp(a: Action) {
    || a.Tick? || OfTimer(a) || (OfSession(a) && !a.BeginAttempt?)
    || a.CollectSession? || a.Decide?
  }

  predicate AllWindUp(actions: seq<Action>) {
    forall i :: 0 <= i < |actions| ==> WindsUp(actions[i])
  }

  ghost predicate MayGiveUp(c: Config, s: State) {
    exists more :: AllWindUp(more) && GivesUp(RunFrom(c, s, more))
  }

  lemma WindUpIsUntouched(c: Config, s: State, a: Action)
    requires Untouched(s) && Enabled(s, a) && WindsUp(a)
    ensures Untouched(Apply(c, s, a))
  {
    var t := Apply(c, s, a);
    if a.CollectSession? || a.Decide? {
      WaitReads(c, s, a);
    } else {
      assert t.history == s.history || t.history.past == s.history;
    }
  }

  lemma {:induction false} TriesOn(c: Config, s: State, more: seq<Action>)
    requires Tries(s) && AllWindUp(more)
    ensures Tries(RunFrom(c, s, more))
    decreases |more|
  {
    if more != [] {
      var a := more[0];
      assert WindsUp(a);
      if Enabled(s, a) {
        WindUpIsUntouched(c, s, a);
        BaseStep(c, s, a);
        RetryStep(c, s, a);
      }
      TriesOn(c, Step(c, s, a), more[1..]);
    }
  }

  /** The publication of the session is refused because its epoch is not released. */
  lemma Refuses(c: Config, s: State)
    requires s.loop.Session? && s.loop.phase.Loading? && s.m.activeEpoch == s.loop.epoch
    requires s.loop.epoch == s.m.refreshEpoch != s.m.releasedEpoch
    ensures Enabled(s, PublishGraph)
    ensures
      var t := Apply(c, s, PublishGraph);
      t == s.(loop := Session(s.loop.epoch, s.loop.session, Refused))
  {
  }

  lemma EndsSilently(c: Config, s: State)
    requires s.loop.Session? && s.loop.phase.Refused? && s.loop.epoch == s.m.refreshEpoch && !s.m.refreshPending
             && !RunCancelled(s)
    ensures
      var t := Step(c, Step(c, Step(c, s, EndSession(false, NoError)), CollectSession), Decide);
      t.loop == Exiting && t.history == After(s.history, SessionEnded(false, NoError))
  {
    var ended := Step(c, s, EndSession(false, NoError));
    assert ended.loop == Ended(s.loop.epoch, false, NoError) && ended.m == s.m;
    var settled := Step(c, ended, CollectSession);
    assert settled.loop == Settled(s.loop.epoch, s.m.refreshEpoch, false, false, NoError)
           && settled.history == ended.history;
    assert settled.m.startId == s.m.startId && settled.cancelledRuns == s.cancelledRuns;
  }

  /** An attempt with an unreleased epoch gives up at once if its graph comes before the release. */
  lemma UnreleasedGivesUp(c: Config, s: State)
    requires s.loop.Session? && s.loop.phase.Loading? && s.m.activeEpoch == s.loop.epoch && !RunCancelled(s)
    requires s.loop.epoch == s.m.refreshEpoch != s.m.releasedEpoch && !s.m.refreshPending
    requires !CleanupFailedInRun(s.history)
    ensures RunFrom(c, s, [PublishGraph, EndSession(false, NoError), CollectSession, Decide]).loop.Exiting?
    ensures RunFrom(c, s, [PublishGraph, EndSession(false, NoError), CollectSession, Decide]).history ==
            After(s.history, SessionEnded(false, NoError))
    ensures MayGiveUp(c, s)
  {
    var more := [PublishGraph, EndSession(false, NoError), CollectSession, Decide];
    RunFour(c, s, more[0], more[1], more[2], more[3]);
    Refuses(c, s);
    EndsSilently(c, Apply(c, s, PublishGraph));
    assert AllWindUp(more) && GivesUp(RunFrom(c, s, more));
  }

  /** The session's epoch is the newest, and its publication will be refused, or was and no release has come since. */
  ghost predicate Unwanted(s: State)
    requires s.loop.Session?
  {
    && s.loop.epoch == s.m.refreshEpoch
    && ((s.loop.phase.Loading? && s.m.releasedEpoch != s.m.refreshEpoch)
        || (s.loop.phase.Refused? && !s.m.refreshPending))
  }

  lemma RefusedGivesUp(c: Config, s: State)
    requires s.loop.Session? && s.loop.phase.Refused? && s.loop.epoch == s.m.refreshEpoch && !s.m.refreshPending
    requires !RunCancelled(s) && !CleanupFailedInRun(s.history)
    ensures MayGiveUp(c, s)
  {
    var more := [EndSession(false, NoError)] + [CollectSession, Decide];
    RunFirst(c, s, EndSession(false, NoError), [CollectSession, Decide]);
    RunTwo(c, Step(c, s, EndSession(false, NoError)), CollectSession, Decide);
    EndsSilently(c, s);
    assert AllWindUp(more) && GivesUp(RunFrom(c, s, more));
  }

  /**
   In every interleaving, a session that is neither stopped nor cancelled can come to end its
   supervisor without a cleanup failure, and without further saves, if and only if its epoch is the
   newest and either not released, so that its publication will be refused, or refused already with
   no release since.
   */
  lemma GivesUpExactly(c: Config, actions: seq<Action>)
    requires Run(c, actions).loop.Session? && Untouched(Run(c, actions))
    ensures MayGiveUp(c, Run(c, actions)) <==> Unwanted(Run(c, actions))
  {
    var s := Run(c, actions);
    BaseRun(c, actions);
    RestartRun(c, actions);
    if Unwanted(s) {
      if s.loop.phase.Loading? {
        UnreleasedGivesUp(c, s);
      } else {
        RefusedGivesUp(c, s);
      }
    } else {
      assert Tries(s);
      forall more | AllWindUp(more) ensures !GivesUp(RunFrom(c, s, more)) {
        TriesOn(c, s, more);
      }
    }
  }

  // ---------------------------------------------------------------------------------------------
  // The gap
  // ---------------------------------------------------------------------------------------------

  /** Every run comes to the gap: the epochs have been checked, the attempt has not begun. */
  lemma GapIsReachable(c: Config)
    ensures Run(c, [StartRun, ReadEpochs]).loop.Between? && Untouched(Run(c, [StartRun, ReadEpochs]))
  {
    var started := Step(c, Init(c), StartRun);
    assert [StartRun, ReadEpochs][..1] == [StartRun] && [StartRun][..0] == [];
    assert Run(c, [StartRun]) == started;
    assert started.history == After(Nothing, RunStarted(0));
  }

  /** A save in the gap makes the attempt begin with an epoch that is newest and not released. */
  lemma SaveInTheGap(c: Config, s: State)
    requires BaseInv(s) && s.loop.Between? && Untouched(s)
    ensures
      var t := RunFrom(c, s, [AcceptSave, BeginAttempt]);
      && BaseInv(t) && Untouched(t) && t.loop.Session? && t.loop.phase.Loading?
      && t.loop.epoch == t.m.refreshEpoch > t.m.releasedEpoch
      && t.m.refreshEpoch in t.armed && !t.m.refreshPending
  {
    RunTwo(c, s, AcceptSave, BeginAttempt);
    var saved := Apply(c, s, AcceptSave);
    BaseStep(c, s, AcceptSave);
    assert saved.loop.Between? && saved.history.past == s.history;
    BaseStep(c, saved, BeginAttempt);
    var t := Apply(c, saved, BeginAttempt);
    assert t.history.past == saved.history;
  }

  /** So in every gap of every run, a save can make the supervisor end silently. */
  lemma GapMayEndSupervisor(c: Config, actions: seq<Action>)
    requires Run(c, actions).loop.Between? && Untouched(Run(c, actions))
    ensures MayGiveUp(c, Run(c, actions + [AcceptSave, BeginAttempt]))
  {
    BaseRun(c, actions);
    SaveInTheGap(c, Run(c, actions));
    RunSplits(c, actions, [AcceptSave, BeginAttempt]);
    GivesUpExactly(c, actions + [AcceptSave, BeginAttempt]);
  }

  lemma FailureSettles(c: Config, s: State)
    requires s.loop.Session? && s.loop.phase.Loading? && s.loop.epoch == s.m.refreshEpoch && !s.m.refreshPending
    ensures
      var t := Step(c, Step(c, s, EndSession(false, Failure)), CollectSession);
      && t.loop == Settled(s.loop.epoch, s.loop.epoch, false, false, Failure) && t.armed == s.armed
      && t.history == After(s.history, SessionEnded(false, Failure)) && t.m.refreshEpoch == s.m.refreshEpoch
      && t.m.startId == s.m.startId && t.cancelledRuns == s.cancelledRuns
  {
    var ended := Step(c, s, EndSession(false, Failure));
    assert ended.loop == Ended(s.loop.epoch, false, Failure) && ended.m == s.m && ended.armed == s.armed;
  }

  lemma FailureBlocks(c: Config, s: State)
    requires s.loop == Settled(s.m.refreshEpoch, s.m.refreshEpoch, false, false, Failure) && Untouched(s)
    ensures
      var t := Step(c, s, Decide);
      && t.loop.Blocked? && t.loop.after == t.m.refreshEpoch == s.m.refreshEpoch && t.armed == s.armed
      && !StopSeen(t.history)
  {
    WaitReads(c, s, Decide);
  }

  /** If instead that attempt fails, the supervisor waits past the newest epoch, whose timer is still to run. */
  lemma FailureWaitsInVain(c: Config, s: State)
    requires BaseInv(s) && Untouched(s) && s.loop.Session? && s.loop.phase.Loading?
    requires s.loop.epoch == s.m.refreshEpoch && s.m.refreshEpoch in s.armed && !s.m.refreshPending
    requires TimerInv(RunFrom(c, s, [EndSession(false, Failure), CollectSession, Decide]))
    ensures
      var t := RunFrom(c, s, [EndSession(false, Failure), CollectSession, Decide]);
      t.loop.Blocked? && !StopSeen(t.history) && WaitsInVain(t)
  {
    var more := [EndSession(false, Failure), CollectSession, Decide];
    assert more == [EndSession(false, Failure)] + [CollectSession, Decide];
    RunFirst(c, s, EndSession(false, Failure), [CollectSession, Decide]);
    RunTwo(c, Step(c, s, EndSession(false, Failure)), CollectSession, Decide);
    FailureSettles(c, s);
    var settled := Step(c, Step(c, s, EndSession(false, Failure)), CollectSession);
    assert !StopSeen(settled.history);
    FailureBlocks(c, settled);
  }

  /** So in every gap of every run, a save can make the supervisor lose a wake-up. */
  lemma GapMayOversleep(c: Config, actions: seq<Action>)
    requires Run(c, actions).loop.Between? && Untouched(Run(c, actions))
    ensures
      var s := Run(c, actions + [AcceptSave, BeginAttempt] + [EndSession(false, Failure), CollectSession, Decide]);
      s.loop.Blocked? && MayOversleep(c, s)
  {
    var begun, failed := [AcceptSave, BeginAttempt], [EndSession(false, Failure), CollectSession, Decide];
    BaseRun(c, actions);
    SaveInTheGap(c, Run(c, actions));
    RunSplits(c, actions, begun);
    RunSplits(c, actions + begun, failed);
    BaseRun(c, actions + begun + failed);
    FailureWaitsInVain(c, Run(c, actions + begun));
    OversleepsExactly(c, actions + begun + failed);
  }
}
