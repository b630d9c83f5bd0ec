/** What the history of every run of the supervisor satisfies. */
module SupervisorLaws {
  import opened Prelude
  import opened Sections
  import opened Supervisor

  // ---------------------------------------------------------------------------------------------
  // Reading a history
  // ---------------------------------------------------------------------------------------------

  /** Saves accepted and stops requested. */
  ghost function Bumps(h: History): nat {
    match h
    case Nothing => 0
    case After(p, e) => Bumps(p) + if e.Saved? || e.StopRequested? then 1 else 0
  }

  ghost function LatestReleased(h: History): nat {
    match h
    case Nothing => 0
    case After(p, e) => if e.Released? || e.RunStarted? then e.epoch else LatestReleased(p)
  }

  ghost function LatestAttempt(h: History): Option<nat> {
    match h
    case Nothing => None
    case After(p, e) => if e.Attempt? then Some(e.epoch) else LatestAttempt(p)
  }

  /** No save was accepted, and no stop requested, since the latest attempt began. */
  ghost predicate QuietSinceAttempt(h: History) {
    match h
    case Nothing => false
    case After(p, e) => e.Attempt? || (!e.Saved? && !e.StopRequested? && QuietSinceAttempt(p))
  }

  ghost function Publications(h: History): nat {
    match h
    case Nothing => 0
    case After(p, e) => Publications(p) + if e.Published? then 1 else 0
  }

  ghost function LatestPublication(h: History): Option<Event> {
    match h
    case Nothing => None
    case After(p, e) => if e.Published? then Some(e) else LatestPublication(p)
  }

  /** The latest attempt has published, i.e. its publication comes after its beginning. */
  ghost predicate PublishedSinceAttempt(h: History) {
    match h
    case Nothing => false
    case After(p, e) => !e.Attempt? && ((e.Published? && e.origin.FromWorker?) || PublishedSinceAttempt(p))
  }

  /** Attempts begun since the last stable load, released save taken, or start of a run. */
  ghost function AttemptsSinceReset(h: History): nat {
    match h
    case Nothing => 0
    case After(p, e) =>
      if e.Attempt? then AttemptsSinceReset(p) + 1
      else if e.RefreshTaken? || e.RunStarted? || (e.SessionEnded? && e.loaded) then 0
      else AttemptsSinceReset(p)
  }

  /**
   Consecutive failed sessions. A stable load starts a new streak with its own failure; a refresh
   taken before an attempt is made does not end one.
   */
  ghost function FailureStreak(h: History): nat {
    match h
    case Nothing => 0
    case After(p, e) =>
      match e
      case SessionEnded(loaded, error) =>
        if error.Failure? then (if loaded then 1 else FailureStreak(p) + 1) else FailureStreak(p)
      case RefreshTaken(site) => if site == Some(AtTop) then FailureStreak(p) else 0
      case RunStarted(_) => 0
      case _ => FailureStreak(p)
  }

  ghost predicate CleanupFailedInRun(h: History) {
    match h
    case Nothing => false
    case After(p, e) =>
      !e.RunStarted? && ((e.SessionEnded? && e.error.CleanupFailure?) || CleanupFailedInRun(p))
  }

  /** An outage was announced in this run and no load has been announced since. */
  ghost predicate OutageOutstanding(h: History) {
    match h
    case Nothing => false
    case After(p, e) => !e.RunStarted? && !e.LoadAnnounced? && (e.OutageAnnounced? || OutageOutstanding(p))
  }

  /** The timer of the save with this epoch has not run yet. */
  ghost predicate Outstanding(h: History, epoch: nat) {
    match h
    case Nothing => false
    case After(p, e) =>
      match e
      case Saved(x) => x == epoch || Outstanding(p, epoch)
      case Released(x) => x != epoch && Outstanding(p, epoch)
      case TimerSpent(x) => x != epoch && Outstanding(p, epoch)
      case _ => Outstanding(p, epoch)
  }

  /** A refresh has been released and neither taken nor overtaken by a newer save. */
  ghost predicate ReleasedUnconsumed(h: History) {
    match h
    case Nothing => false
    case After(p, e) =>
      e.Released? || (!e.Saved? && !e.RunStarted? && !e.RefreshTaken? && ReleasedUnconsumed(p))
  }

  /** A stop was requested since the latest run started. */
  ghost predicate StopSeen(h: History) {
    match h
    case Nothing => false
    case After(p, e) => !e.RunStarted? && (e.StopRequested? || StopSeen(p))
  }

  ghost function Starts(h: History): nat {
    match h
    case Nothing => 0
    case After(p, e) => Starts(p) + if e.RunStarted? then 1 else 0
  }

  /** The latest attempt of this run, if any, began when the timer of its epoch had already run. */
  ghost predicate AttemptBeganSettled(h: History) {
    match h
    case Nothing => true
    case After(p, e) =>
      match e
      case Attempt(epoch) => !Outstanding(p, epoch)
      case RunStarted(_) => true
      case _ => AttemptBeganSettled(p)
  }

  /** The latest attempt of this run, if any, began with the latest released epoch. */
  ghost predicate AttemptBeganReleased(h: History) {
    match h
    case Nothing => true
    case After(p, e) =>
      match e
      case Attempt(epoch) => epoch == LatestReleased(p)
      case RunStarted(_) => true
      case _ => AttemptBeganReleased(p)
  }

  /** No timer of an earlier run was still armed for the newest epoch when this run started. */
  ghost predicate RunBeganSettled(h: History) {
    match h
    case Nothing => true
    case After(p, e) => if e.RunStarted? then !Outstanding(p, e.epoch) else RunBeganSettled(p)
  }

  // ---------------------------------------------------------------------------------------------
  // The laws
  // ---------------------------------------------------------------------------------------------

  /** A worker's graph is published only for the latest released epoch and with no save since the session began. */
  ghost predicate Freshness(h: History) {
    match h
    case Nothing => true
    case After(p, e) =>
      && Freshness(p)
      && (e.Published? && e.origin.FromWorker? ==>
            QuietSinceAttempt(p) && LatestAttempt(p) == Some(LatestReleased(p)))
  }

  /** Generations count publications; only the very first graph may come from disk, and then it is generation 1. */
  ghost predicate AuthorityForward(h: History, initial: nat) {
    match h
    case Nothing => true
    case After(p, e) =>
      && AuthorityForward(p, initial)
      && (e.Published? ==>
            && e.generation == initial + Publications(p) + 1
            && (e.origin.FromDisk? ==> e.generation == 1))
  }

  /** A snapshot reaches disk only while its graph is the latest one, published by this session, with no save since. */
  ghost predicate InstallsLatest(h: History) {
    match h
    case Nothing => true
    case After(p, e) =>
      && InstallsLatest(p)
      && (e.Installed? ==>
            && LatestPublication(p) == Some(Published(FromWorker, e.generation))
            && PublishedSinceAttempt(p)
            && QuietSinceAttempt(p))
  }

  ghost predicate RestartsBounded(h: History, limit: nat) {
    match h
    case Nothing => true
    case After(p, e) => RestartsBounded(p, limit) && AttemptsSinceReset(h) <= limit + 1
  }

  ghost predicate BackoffsExact(h: History, base: nat) {
    match h
    case Nothing => true
    case After(p, e) =>
      && BackoffsExact(p, base)
      && (e.BackedOff? ==>
            && FailureStreak(p) > 0
            && var exact := base * Pow2(FailureStreak(p) - 1);
            && e.delay <= exact && e.delay <= BACKOFF_CAP
            && (e.delay == exact || e.delay == BACKOFF_CAP))
  }

  ghost predicate NoAttemptAfterCleanupFailure(h: History) {
    match h
    case Nothing => true
    case After(p, e) => NoAttemptAfterCleanupFailure(p) && (e.Attempt? ==> !CleanupFailedInRun(p))
  }

  ghost predicate OutagesSeparated(h: History) {
    match h
    case Nothing => true
    case After(p, e) => OutagesSeparated(p) && (e.OutageAnnounced? ==> !OutageOutstanding(p))
  }

  // ---------------------------------------------------------------------------------------------
  // Epochs and publication
  // ---------------------------------------------------------------------------------------------

  /** The manager's counters are what the history says they are. */
  ghost predicate CountersInv(c: Config, s: State) {
    && (s.m.active <==> !s.loop.Idle?)
    && s.m.startId == Starts(s.history)
    && s.m.refreshEpoch == Bumps(s.history)
    && s.m.releasedEpoch == LatestReleased(s.history) <= s.m.refreshEpoch
    && s.m.refreshPending == ReleasedUnconsumed(s.history)
    && s.m.generation == c.generation + Publications(s.history)
    && (s.m.authority.NoAuthority? <==> s.m.generation == 0)
    && (c.generation > 0 ==> !s.m.authority.Provisional?)
  }

  ghost predicate SessionInv(s: State) {
    && (s.loop.Ended? ==>
          && s.loop.epoch <= s.m.refreshEpoch
          && (s.loop.epoch == s.m.refreshEpoch <==> QuietSinceAttempt(s.history)))
    && (s.loop.Session? ==> PhaseInv(s))
  }

  ghost predicate PhaseInv(s: State)
    requires s.loop.Session?
  {
    && s.m.activeEpoch == s.loop.epoch <= s.m.refreshEpoch
    && LatestAttempt(s.history) == Some(s.loop.epoch)
    && (s.loop.epoch == s.m.refreshEpoch <==> QuietSinceAttempt(s.history))
    && (s.loop.phase.Accepted? || s.loop.phase.Announced? || s.loop.phase.Captured? ==>
          && s.m.authority.Runtime?
          && LatestPublication(s.history) == Some(Published(FromWorker, s.loop.phase.generation))
          && PublishedSinceAttempt(s.history))
    && (s.loop.phase.Captured? ==>
          s.loop.phase.epoch == s.loop.epoch && s.loop.phase.authority == s.m.publishedAuthority)
  }

  ghost predicate PublicationInv(c: Config, s: State) {
    && CountersInv(c, s)
    && SessionInv(s)
    && Freshness(s.history)
    && AuthorityForward(s.history, c.generation)
    && InstallsLatest(s.history)
  }

  /** Leaving a finished session publishes nothing and moves no epoch. */
  lemma EnactKeepsPublication(c: Config, s: State, v: Verdict)
    requires PublicationInv(c, s) && s.m.active && (v.loop.Top? || v.loop.Blocked? || v.loop.Exiting?)
    ensures PublicationInv(c, Enact(s, v))
  {
  }

  lemma ConcludePublication(c: Config, s: State)
    requires PublicationInv(c, s) && s.loop.Settled?
    ensures
      var l := s.loop;
      PublicationInv(c, Enact(s, Conclude(c, s.failures, s.notified, l.refresh, l.epoch, l.current, l.loaded, l.error)))
  {
    var l := s.loop;
    EnactKeepsPublication(c, s, Conclude(c, s.failures, s.notified, l.refresh, l.epoch, l.current, l.loaded, l.error));
  }

  lemma LeavePublication(c: Config, s: State)
    requires PublicationInv(c, s) && s.loop.Settled?
             && (RunCancelled(s) || (s.loop.epoch != s.loop.current && !s.loop.refresh))
    ensures PublicationInv(c, Apply(c, s, Decide))
  {
  }

  lemma DecidePublication(c: Config, s: State)
    requires PublicationInv(c, s) && s.loop.Settled?
    ensures PublicationInv(c, Apply(c, s, Decide))
  {
    if RunCancelled(s) || (s.loop.epoch != s.loop.current && !s.loop.refresh) {
      LeavePublication(c, s);
    } else {
      ConcludePublication(c, s);
    }
  }

  lemma WakePublication(c: Config, s: State)
    requires PublicationInv(c, s) && s.loop.Woken?
    ensures PublicationInv(c, Apply(c, s, CheckToken))
  {
    var l := s.loop;
    var t := TakeRefresh(s);
    if WakeValid(s.m, l.after, s.now) {
      EnactKeepsPublication(c, t, Resume(c, s));
    }
  }

  lemma ClientPublication(c: Config, s: State, a: Action)
    requires PublicationInv(c, s) && Enabled(s, a) && OfClient(a)
    ensures PublicationInv(c, Apply(c, s, a))
  {
    var t := Apply(c, s, a);
    assert t.loop == s.loop || t.loop.Top?;
    assert t.history == s.history || t.history.past == s.history;
  }

  lemma TimerPublication(c: Config, s: State, a: Action)
    requires PublicationInv(c, s) && Enabled(s, a) && OfTimer(a)
    ensures PublicationInv(c, Apply(c, s, a))
  {
    var t := Apply(c, s, a);
    assert t.loop == s.loop;
    if a.FireTimer? {
      assert t.history.past == s.history;
    }
  }

  lemma SessionPublication(c: Config, s: State, a: Action)
    requires PublicationInv(c, s) && Enabled(s, a) && OfSession(a)
    ensures PublicationInv(c, Apply(c, s, a))
  {
    var t := Apply(c, s, a);
    assert t.history == s.history || t.history.past == s.history;
  }

  lemma WaitPublication(c: Config, s: State, a: Action)
    requires PublicationInv(c, s) && Enabled(s, a) && OfWait(a)
    ensures PublicationInv(c, Apply(c, s, a))
  {
  }

  lemma PublicationStep(c: Config, s: State, a: Action)
    requires PublicationInv(c, s)
    ensures PublicationInv(c, Step(c, s, a))
  {
    if Enabled(s, a) {
      if OfClient(a) {
        ClientPublication(c, s, a);
      } else if OfTimer(a) {
        TimerPublication(c, s, a);
      } else if OfSession(a) {
        SessionPublication(c, s, a);
      } else if OfWait(a) {
        WaitPublication(c, s, a);
      } else if a.Decide? {
        DecidePublication(c, s);
      } else {
        WakePublication(c, s);
      }
    }
  }

  lemma {:induction false} PublicationRun(c: Config, actions: seq<Action>)
    ensures PublicationInv(c, Run(c, actions))
  {
    if actions != [] {
      PublicationRun(c, actions[..|actions| - 1]);
      PublicationStep(c, Run(c, actions[..|actions| - 1]), actions[|actions| - 1]);
    }
  }

  // ---------------------------------------------------------------------------------------------
  // Restarts and outage notifications
  // ---------------------------------------------------------------------------------------------

  /** The loop may go on to begin an attempt: its counter is the current streak and within the limit. */
  ghost predicate MayAttempt(c: Config, s: State, slack: nat) {
    && !CleanupFailedInRun(s.history)
    && s.failures == FailureStreak(s.history) <= c.restartLimit
    && AttemptsSinceReset(s.history) <= s.failures + slack
  }

  /** A session has returned and its failure is not counted yet. */
  ghost predicate AwaitsVerdict(c: Config, s: State, refresh: bool, loaded: bool, error: SessionError) {
    && (CleanupFailedInRun(s.history) ==> error.CleanupFailure?)
    && (loaded ==> AttemptsSinceReset(s.history) == 0 && !OutageOutstanding(s.history))
    && s.failures <= c.restartLimit
    && AttemptsSinceReset(s.history) <= s.failures + 1
    && (refresh ==> AttemptsSinceReset(s.history) == FailureStreak(s.history) == 0)
    && (!refresh && error.Failure? ==> FailureStreak(s.history) == if loaded then 1 else s.failures + 1)
  }

  ghost predicate WaitsWell(c: Config, s: State, site: Site, loaded: bool, error: SessionError) {
    match site
    case AtTop => MayAttempt(c, s, 0)
    case AtSuperseded => AwaitsVerdict(c, s, false, loaded, error)
    case AtLimit =>
      && !CleanupFailedInRun(s.history)
      && AttemptsSinceReset(s.history) <= c.restartLimit + 1
      && FailureStreak(s.history) > c.restartLimit
    case AtBackoff => MayAttempt(c, s, 0)
  }

  ghost predicate LoopInv(c: Config, s: State) {
    && (!s.loop.Exiting? && !s.loop.Idle? && OutageOutstanding(s.history) ==> s.notified)
    && match s.loop
       case Idle => true
       case Top => MayAttempt(c, s, 0)
       case Between => MayAttempt(c, s, 0)
       case Session(_, _, phase) =>
         && MayAttempt(c, s, 1)
         && (phase.Announced? || phase.Captured? || phase.Serving? ==> !OutageOutstanding(s.history))
       case Ended(_, loaded, error) => AwaitsVerdict(c, s, false, loaded, error)
       case Settled(_, _, refresh, loaded, error) => AwaitsVerdict(c, s, refresh, loaded, error)
       case Blocked(site, _, loaded, error) => WaitsWell(c, s, site, loaded, error)
       case Woken(site, _, loaded, error) => WaitsWell(c, s, site, loaded, error)
       case Exiting => true
  }

  ghost predicate RestartInv(c: Config, s: State) {
    && (s.m.active <==> !s.loop.Idle?)
    && LoopInv(c, s)
    && RestartsBounded(s.history, c.restartLimit)
    && BackoffsExact(s.history, c.backoffBase)
    && NoAttemptAfterCleanupFailure(s.history)
    && OutagesSeparated(s.history)
  }

  /** Events that concern neither attempts nor outages. */
  ghost predicate Neutral(e: Event) {
    e.Saved? || e.Released? || e.TimerSpent? || e.StopRequested? || e.Published? || e.Installed?
  }

  lemma FrameRestart(c: Config, s: State, t: State)
    requires RestartInv(c, s)
    requires t.m.active == s.m.active && t.loop == s.loop && t.failures == s.failures && t.notified == s.notified
    requires t.history == s.history || (t.history.After? && t.history.past == s.history && Neutral(t.history.event))
    ensures RestartInv(c, t)
  {
    if t.history != s.history {
      NeutralReads(s.history, t.history.event);
    }
  }

  lemma NeutralReads(h: History, e: Event)
    requires Neutral(e)
    ensures AttemptsSinceReset(After(h, e)) == AttemptsSinceReset(h) && FailureStreak(After(h, e)) == FailureStreak(h)
    ensures CleanupFailedInRun(After(h, e)) == CleanupFailedInRun(h)
            && OutageOutstanding(After(h, e)) == OutageOutstanding(h)
  {
  }

  /** What a verdict on a returned session needs. */
  ghost predicate VerdictDue(c: Config, s: State, refresh: bool, loaded: bool, error: SessionError) {
    && s.m.active && AwaitsVerdict(c, s, refresh, loaded, error)
    && (OutageOutstanding(s.history) ==> s.notified)
    && RestartsBounded(s.history, c.restartLimit) && BackoffsExact(s.history, c.backoffBase)
    && NoAttemptAfterCleanupFailure(s.history) && OutagesSeparated(s.history)
  }

  lemma ConcludeRefresh(c: Config, s: State, epoch: nat, current: nat, loaded: bool, error: SessionError)
    requires VerdictDue(c, s, true, loaded, error)
    ensures RestartInv(c, Enact(s, Conclude(c, s.failures, s.notified, true, epoch, current, loaded, error)))
  {
    var t := Enact(s, Conclude(c, s.failures, s.notified, true, epoch, current, loaded, error));
    assert t.history == s.history || t.history.past == s.history;
  }

  lemma ConcludeFailure(c: Config, s: State, epoch: nat, current: nat, loaded: bool, error: SessionError)
    requires VerdictDue(c, s, false, loaded, error)
    ensures RestartInv(c, Enact(s, Conclude(c, s.failures, s.notified, false, epoch, current, loaded, error)))
  {
    var t := Enact(s, Conclude(c, s.failures, s.notified, false, epoch, current, loaded, error));
    assert t.history == s.history || t.history.past == s.history || t.history.past.past == s.history;
    if error.Failure? {
      assert t.failures == FailureStreak(s.history);
    }
  }

  /** A returned session whose verdict is due keeps the laws, whether or not a refresh was taken. */
  lemma ConcludeRestart(c: Config, s: State, refresh: bool, epoch: nat, current: nat, loaded: bool, error: SessionError)
    requires VerdictDue(c, s, refresh, loaded, error)
    ensures RestartInv(c, Enact(s, Conclude(c, s.failures, s.notified, refresh, epoch, current, loaded, error)))
  {
    if refresh {
      ConcludeRefresh(c, s, epoch, current, loaded, error);
    } else {
      ConcludeFailure(c, s, epoch, current, loaded, error);
    }
  }

  lemma ClientRestart(c: Config, s: State, a: Action)
    requires RestartInv(c, s) && Enabled(s, a) && OfClient(a)
    ensures RestartInv(c, Apply(c, s, a))
  {
    if !a.StartRun? {
      FrameRestart(c, s, Apply(c, s, a));
    }
  }

  lemma TimerRestart(c: Config, s: State, a: Action)
    requires RestartInv(c, s) && Enabled(s, a) && OfTimer(a)
    ensures RestartInv(c, Apply(c, s, a))
  {
    FrameRestart(c, s, Apply(c, s, a));
  }

  lemma SessionRestart(c: Config, s: State, a: Action)
    requires RestartInv(c, s) && Enabled(s, a) && OfSession(a)
    ensures RestartInv(c, Apply(c, s, a))
  {
    var t := Apply(c, s, a);
    assert t.history == s.history || t.history.past == s.history;
  }

  lemma WaitRestart(c: Config, s: State, a: Action)
    requires RestartInv(c, s) && Enabled(s, a) && OfWait(a)
    ensures RestartInv(c, Apply(c, s, a))
  {
    var t := Apply(c, s, a);
    assert t.history == s.history || t.history.past == s.history;
  }

  lemma DecideRestart(c: Config, s: State)
    requires RestartInv(c, s) && s.loop.Settled?
    ensures RestartInv(c, Apply(c, s, Decide))
  {
    var l := s.loop;
    if !RunCancelled(s) && (l.epoch == l.current || l.refresh) {
      ConcludeRestart(c, s, l.refresh, l.epoch, l.current, l.loaded, l.error);
    }
  }

  /** A wait that is over goes back to the top, with the counters it must have there. */
  lemma ResumeRestart(c: Config, s: State)
    requires RestartInv(c, s) && s.loop.Woken? && !s.loop.site.AtSuperseded?
    ensures RestartInv(c, Enact(TakeRefresh(s), Resume(c, s)))
  {
    var t := Enact(TakeRefresh(s), Resume(c, s));
    assert t.history.past == s.history && t.loop.Top?;
  }

  lemma ConcludeAfterWait(c: Config, s: State)
    requires RestartInv(c, s) && s.loop.Woken? && s.loop.site.AtSuperseded?
    ensures RestartInv(c, Enact(TakeRefresh(s), Resume(c, s)))
  {
    var l := s.loop;
    ConcludeRestart(c, TakeRefresh(s), true, l.after, l.after, l.loaded, l.error);
  }

  lemma WakeRestart(c: Config, s: State)
    requires RestartInv(c, s) && s.loop.Woken?
    ensures RestartInv(c, Apply(c, s, CheckToken))
  {
    if WakeValid(s.m, s.loop.after, s.now) {
      if s.loop.site.AtSuperseded? {
        ConcludeAfterWait(c, s);
      } else {
        ResumeRestart(c, s);
      }
    }
  }

  lemma RestartStep(c: Config, s: State, a: Action)
    requires RestartInv(c, s)
    ensures RestartInv(c, Step(c, s, a))
  {
    if Enabled(s, a) {
      if OfClient(a) {
        ClientRestart(c, s, a);
      } else if OfTimer(a) {
        TimerRestart(c, s, a);
      } else if OfSession(a) {
        SessionRestart(c, s, a);
      } else if OfWait(a) {
        WaitRestart(c, s, a);
      } else if a.Decide? {
        DecideRestart(c, s);
      } else {
        WakeRestart(c, s);
      }
    }
  }

  lemma {:induction false} RestartRun(c: Config, actions: seq<Action>)
    ensures RestartInv(c, Run(c, actions))
  {
    if actions != [] {
      RestartRun(c, actions[..|actions| - 1]);
      RestartStep(c, Run(c, actions[..|actions| - 1]), actions[|actions| - 1]);
    }
  }
}
