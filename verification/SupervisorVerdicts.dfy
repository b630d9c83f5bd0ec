/** What the supervisor does with a finished session and with a wake token, told by the history. */
module SupervisorVerdicts {
  import opened Prelude
  import opened Sections
  import opened Supervisor
  import opened SupervisorLaws
  import opened SupervisorWake
  import opened SupervisorSleep

  // ---------------------------------------------------------------------------------------------
  // What the loop carries is what the history says
  // ---------------------------------------------------------------------------------------------

  datatype Outcome = Outcome(loaded: bool, error: SessionError)

  ghost function LatestOutcome(h: History): Option<Outcome> {
    match h
    case Nothing => None
    case After(p, e) => if e.SessionEnded? then Some(Outcome(e.loaded, e.error)) else LatestOutcome(p)
  }

  /** A refresh has been taken since the latest session ended. */
  ghost predicate RefreshSinceEnd(h: History) {
    match h
    case Nothing => false
    case After(p, e) => e.RefreshTaken? || (!e.SessionEnded? && RefreshSinceEnd(p))
  }

  /** The loop carries the outcome of the latest session, of the latest attempt's epoch. */
  ghost predicate Carries(h: History, epoch: nat, loaded: bool, error: SessionError) {
    && LatestOutcome(h) == Some(Outcome(loaded, error))
    && LatestAttempt(h) == Some(epoch)
  }

  ghost predicate CarriedInv(s: State) {
    && (s.m.active == !s.loop.Idle?)
    && (!s.loop.Idle? && !s.loop.Exiting? ==> s.notified == OutageOutstanding(s.history))
    && match s.loop
       case Session(epoch, _, phase) =>
         && LatestAttempt(s.history) == Some(epoch)
         && (phase.Announced? || phase.Captured? || phase.Serving? ==> !OutageOutstanding(s.history))
       case Ended(epoch, loaded, error) =>
         && Carries(s.history, epoch, loaded, error) && !RefreshSinceEnd(s.history)
         && (loaded ==> !OutageOutstanding(s.history))
       case Settled(epoch, _, refresh, loaded, error) =>
         && Carries(s.history, epoch, loaded, error) && refresh == RefreshSinceEnd(s.history)
         && (loaded ==> !OutageOutstanding(s.history))
       case Blocked(site, after, loaded, error) => WaitCarries(s.history, site, after, loaded, error)
       case Woken(site, after, loaded, error) => WaitCarries(s.history, site, after, loaded, error)
       case _ => true
  }

  /** Every wait but the one for the limit, and the one at the top, is past the epoch of the latest attempt. */
  ghost predicate WaitCarries(h: History, site: Site, after: nat, loaded: bool, error: SessionError) {
    match site
    case AtTop => true
    case AtLimit => LatestOutcome(h) == Some(Outcome(loaded, error))
    case _ => Carries(h, after, loaded, error)
  }

  /** Events of which the loop carries nothing. */
  predicate Foreign(e: Event) {
    e.Saved? || e.Released? || e.TimerSpent? || e.StopRequested? || e.Published? || e.Installed?
  }

  lemma ForeignReads(h: History, e: Event)
    requires Foreign(e)
    ensures LatestOutcome(After(h, e)) == LatestOutcome(h) && LatestAttempt(After(h, e)) == LatestAttempt(h)
    ensures RefreshSinceEnd(After(h, e)) == RefreshSinceEnd(h)
    ensures OutageOutstanding(After(h, e)) == OutageOutstanding(h)
  {
  }

  lemma CarriedFrame(s: State, t: State)
    requires CarriedInv(s)
    requires t.m.active == s.m.active && t.loop == s.loop && t.notified == s.notified
    requires t.history == s.history || (t.history.After? && t.history.past == s.history && Foreign(t.history.event))
    ensures CarriedInv(t)
  {
    if t.history != s.history {
      ForeignReads(s.history, t.history.event);
    }
  }

  lemma CarriedOutside(c: Config, s: State, a: Action)
    requires CarriedInv(s) && Enabled(s, a) && (OfClient(a) || OfTimer(a))
    ensures CarriedInv(Apply(c, s, a))
  {
    if !a.StartRun? {
      CarriedFrame(s, Apply(c, s, a));
    }
  }

  lemma CarriedInside(c: Config, s: State, a: Action)
    requires CarriedInv(s) && Enabled(s, a) && (OfSession(a) || OfWait(a))
    ensures CarriedInv(Apply(c, s, a))
  {
    var t := Apply(c, s, a);
    assert t.history == s.history || t.history.past == s.history;
  }

  lemma CarriedDecide(c: Config, s: State)
    requires CarriedInv(s) && s.loop.Settled?
    ensures CarriedInv(Apply(c, s, Decide))
  {
    var t := Apply(c, s, Decide);
    assert t.history == s.history || t.history.past == s.history || t.history.past.past == s.history;
  }

  lemma CarriedToken(c: Config, s: State)
    requires CarriedInv(s) && s.loop.Woken?
    ensures CarriedInv(Apply(c, s, CheckToken))
  {
    var t := Apply(c, s, CheckToken);
    assert t.history == s.history || t.history.past == s.history || t.history.past.past == s.history;
  }

  lemma CarriedStep(c: Config, s: State, a: Action)
    requires CarriedInv(s)
    ensures CarriedInv(Step(c, s, a))
  {
    if Enabled(s, a) {
      if OfClient(a) || OfTimer(a) {
        CarriedOutside(c, s, a);
      } else if OfSession(a) || OfWait(a) {
        CarriedInside(c, s, a);
      } else if a.Decide? {
        CarriedDecide(c, s);
      } else {
        CarriedToken(c, s);
      }
    }
  }

  lemma {:induction false} CarriedRun(c: Config, actions: seq<Action>)
    ensures CarriedInv(Run(c, actions))
  {
    if actions != [] {
      CarriedRun(c, actions[..|actions| - 1]);
      CarriedStep(c, Run(c, actions[..|actions| - 1]), actions[|actions| - 1]);
    }
  }

  // ---------------------------------------------------------------------------------------------
  // Collecting a session
  // ---------------------------------------------------------------------------------------------

  /**
   A session is collected with the epoch of the latest attempt and the number of saves and stops so
   far; a refresh is taken exactly when a release is waiting. So the session counts as superseded
   exactly when there has been a save or a stop since its attempt began.
   */
  lemma CollectionDecided(c: Config, actions: seq<Action>)
    requires Run(c, actions).loop.Ended?
    ensures
      var h := Run(c, actions).history;
      var t := Apply(c, Run(c, actions), CollectSession);
      && LatestAttempt(h) == Some(t.loop.epoch) && LatestOutcome(h) == Some(Outcome(t.loop.loaded, t.loop.error))
      && t.loop.current == Bumps(h) && t.loop.refresh == ReleasedUnconsumed(h)
      && t.history == (if ReleasedUnconsumed(h) then After(h, RefreshTaken(None)) else h)
      && !t.m.refreshPending
      && (t.loop.epoch == t.loop.current <==> QuietSinceAttempt(h))
  {
    CarriedRun(c, actions);
    PublicationRun(c, actions);
  }

  // ---------------------------------------------------------------------------------------------
  // The verdict
  // ---------------------------------------------------------------------------------------------

  /** An outage is announced unless one is outstanding. */
  ghost function Announce(h: History): History {
    if OutageOutstanding(h) then h else After(h, OutageAnnounced)
  }

  /** The loop's next place and the history so far. */
  ghost predicate Goes(t: State, loop: Loop, h: History) {
    t.loop == loop && t.history == h
  }

  /**
   What becomes of a session that was neither cancelled nor superseded, given its outcome: taken
   refreshes and the end of a run aside, a failure is answered by a restart after the delay for the
   streak of failures as long as the streak is within the limit, and only then by a wait for a save.
   */
  ghost predicate Answered(c: Config, h: History, o: Outcome, epoch: nat, current: nat, t: State) {
    if RefreshSinceEnd(h) then
      if o.error.CleanupFailure? then Goes(t, Exiting, Announce(h)) else Goes(t, Top, h)
    else
      match o.error
      case NoError => Goes(t, Exiting, h)
      case CleanupFailure => Goes(t, Exiting, Announce(h))
      case Failure =>
        var streak := FailureStreak(h);
        && streak > 0
        && if streak <= c.restartLimit
           then Goes(t, Blocked(AtBackoff, epoch, o.loaded, o.error),
                     After(Announce(h), BackedOff(BackoffDelay(c, streak))))
           else Goes(t, Blocked(AtLimit, current, o.loaded, o.error), Announce(h))
  }

  ghost predicate Judged(c: Config, s: State, t: State)
    requires s.loop.Settled?
  {
    var h, l, o := s.history, s.loop, LatestOutcome(s.history);
    && o.Some? && LatestAttempt(h) == Some(l.epoch) && t.m == s.m
    && if RunCancelled(s) then Goes(t, Exiting, h)
       else if l.epoch != l.current && !RefreshSinceEnd(h)
       then Goes(t, Blocked(AtSuperseded, l.epoch, o.value.loaded, o.value.error), h)
       else Answered(c, h, o.value, l.epoch, l.current, t)
  }

  lemma ConcludeAnswers(c: Config, s: State)
    requires CarriedInv(s) && s.loop.Settled?
    requires AwaitsVerdict(c, s, s.loop.refresh, s.loop.loaded, s.loop.error)
    ensures
      var l := s.loop;
      var v := Conclude(c, s.failures, s.notified, l.refresh, l.epoch, l.current, l.loaded, l.error);
      Answered(c, s.history, Outcome(l.loaded, l.error), l.epoch, l.current, Enact(s, v))
  {
  }

  /** In every interleaving, a settled session is judged by the history. */
  lemma SessionsAreJudged(c: Config, actions: seq<Action>)
    requires Run(c, actions).loop.Settled?
    ensures Judged(c, Run(c, actions), Apply(c, Run(c, actions), Decide))
  {
    CarriedRun(c, actions);
    RestartRun(c, actions);
    ConcludeAnswers(c, Run(c, actions));
  }

  // ---------------------------------------------------------------------------------------------
  // The wake token
  // ---------------------------------------------------------------------------------------------

  /** The newest save is past the epoch waited for, released, not taken, and its deadline has passed. */
  ghost predicate Awaited(s: State, after: nat) {
    && Bumps(s.history) > after
    && LatestReleased(s.history) == Bumps(s.history)
    && ReleasedUnconsumed(s.history)
    && s.now >= s.m.refreshDeadline
  }

  /**
   A token that stands for no awaited release changes nothing and the wait goes on; otherwise the
   refresh is taken and a new attempt follows, unless a superseded session had failed to clean up.
   */
  ghost predicate Woke(s: State, t: State)
    requires s.loop.Woken?
  {
    var l := s.loop;
    if Awaited(s, l.after) then
      var taken := After(s.history, RefreshTaken(Some(l.site)));
      && t.m == s.m.(refreshPending := false)
      && if l.site.AtSuperseded? && l.error.CleanupFailure?
         then Goes(t, Exiting, Announce(taken))
         else Goes(t, Top, taken)
    else t.m == s.m && Goes(t, Blocked(l.site, l.after, l.loaded, l.error), s.history)
  }

  lemma AwaitedIsValid(c: Config, s: State, after: nat)
    requires CountersInv(c, s)
    ensures Awaited(s, after) == WakeValid(s.m, after, s.now)
  {
  }

  lemma ResumeAnswers(c: Config, s: State)
    requires CarriedInv(s) && s.loop.Woken?
    requires Awaited(s, s.loop.after)
    requires WakeValid(s.m, s.loop.after, s.now)
    ensures Woke(s, Enact(TakeRefresh(s), Resume(c, s)))
  {
  }

  lemma TokensAreJudged(c: Config, actions: seq<Action>)
    requires Run(c, actions).loop.Woken?
    ensures Woke(Run(c, actions), Apply(c, Run(c, actions), CheckToken))
  {
    var s := Run(c, actions);
    CarriedRun(c, actions);
    PublicationRun(c, actions);
    AwaitedIsValid(c, s, s.loop.after);
    if Awaited(s, s.loop.after) {
      ResumeAnswers(c, s);
    }
  }

  /** A supervisor waits at the limit only after more failures in a row than the limit allows. */
  lemma LimitMeansStreak(c: Config, actions: seq<Action>)
    requires
      var l := Run(c, actions).loop;
      (l.Blocked? || l.Woken?) && l.site.AtLimit?
    ensures FailureStreak(Run(c, actions).history) > c.restartLimit
  {
    RestartRun(c, actions);
  }

  // ---------------------------------------------------------------------------------------------
  // The limit is used
  // ---------------------------------------------------------------------------------------------

  /** At the top after `k` failures in a row, with nothing saved, released or cancelled. */
  ghost predicate FailedSoFar(s: State, k: nat) {
    && s.loop.Top? && s.failures == k && AttemptsSinceReset(s.history) == k
    && s.m.refreshEpoch == s.m.releasedEpoch && !s.m.refreshPending && !RunCancelled(s)
  }

  const FAILED_ATTEMPT := [ReadEpochs, BeginAttempt, EndSession(false, Failure), CollectSession]

  lemma AttemptBegins(c: Config, s: State)
    requires s.loop.Top? && s.m.refreshEpoch == s.m.releasedEpoch
    ensures
      var t := Step(c, Step(c, s, ReadEpochs), BeginAttempt);
      && t.loop == Session(s.m.refreshEpoch, s.sessions, Loading)
      && t.history == After(s.history, Attempt(s.m.refreshEpoch))
      && t.m == Begin(s.m, s.sessions) && t.failures == s.failures && t.cancelledRuns == s.cancelledRuns
  {
    assert Step(c, s, ReadEpochs) == s.(loop := Between);
  }

  lemma AttemptFails(c: Config, s: State, k: nat)
    requires FailedSoFar(s, k)
    ensures
      var t := RunFrom(c, s, FAILED_ATTEMPT);
      && t.loop == Settled(s.m.refreshEpoch, s.m.refreshEpoch, false, false, Failure)
      && t.failures == k && AttemptsSinceReset(t.history) == k + 1 && !RunCancelled(t)
      && t.m.refreshEpoch == t.m.releasedEpoch == s.m.refreshEpoch && !t.m.refreshPending
  {
    RunFour(c, s, ReadEpochs, BeginAttempt, EndSession(false, Failure), CollectSession);
    var begun := Step(c, Step(c, s, ReadEpochs), BeginAttempt);
    AttemptBegins(c, s);
    var ended := Step(c, begun, EndSession(false, Failure));
    assert ended.history == After(begun.history, SessionEnded(false, Failure));
  }

  lemma FailureRestarts(c: Config, s: State, k: nat)
    requires s.loop == Settled(s.m.refreshEpoch, s.m.refreshEpoch, false, false, Failure)
    requires s.failures == k < c.restartLimit && AttemptsSinceReset(s.history) == k + 1 && !RunCancelled(s)
    requires s.m.refreshEpoch == s.m.releasedEpoch && !s.m.refreshPending
    ensures FailedSoFar(RunFrom(c, s, [Decide, ExpireBackoff]), k + 1)
  {
    RunTwo(c, s, Decide, ExpireBackoff);
    var waiting := Step(c, s, Decide);
    assert waiting.loop.Blocked? && waiting.loop.site.AtBackoff? && waiting.m == s.m;
    assert waiting.history.event.BackedOff?;
  }

  lemma {:induction false} FailuresReach(c: Config, k: nat) returns (actions: seq<Action>)
    requires k <= c.restartLimit
    ensures FailedSoFar(Run(c, actions), k)
  {
    if k == 0 {
      actions := [StartRun];
      assert [StartRun][..0] == [];
      assert Run(c, actions) == Step(c, Init(c), StartRun);
    } else {
      var before := FailuresReach(c, k - 1);
      var s := Run(c, before);
      AttemptFails(c, s, k - 1);
      RunSplits(c, before, FAILED_ATTEMPT);
      FailureRestarts(c, Run(c, before + FAILED_ATTEMPT), k - 1);
      RunSplits(c, before + FAILED_ATTEMPT, [Decide, ExpireBackoff]);
      actions := before + FAILED_ATTEMPT + [Decide, ExpireBackoff];
    }
  }

  /** In every configuration some run makes the full number of attempts without a load or a refresh. */
  lemma LimitIsUsed(c: Config)
    ensures exists actions :: AttemptsSinceReset(Run(c, actions).history) == c.restartLimit + 1
  {
    var before := FailuresReach(c, c.restartLimit);
    AttemptFails(c, Run(c, before), c.restartLimit);
    RunSplits(c, before, FAILED_ATTEMPT);
    var actions := before + FAILED_ATTEMPT;
    assert AttemptsSinceReset(Run(c, actions).history) == c.restartLimit + 1;
  }

  // ---------------------------------------------------------------------------------------------
  // Debouncing
  // ---------------------------------------------------------------------------------------------

  /** Time passed since the latest accepted save, if there has been one. */
  ghost function SinceSave(c: Config, actions: seq<Action>): Option<nat> {
    if actions == [] then None
    else
      var before, a := actions[..|actions| - 1], actions[|actions| - 1];
      match a
      case Tick(delta) =>
        (match SinceSave(c, before) case None => None case Some(n) => Some(n + delta))
      case AcceptSave => if Run(c, before).m.active then Some(0) else SinceSave(c, before)
      case _ => SinceSave(c, before)
  }

  /** The deadline is the refresh delay after the latest save. */
  lemma {:induction false} DeadlineFollowsSave(c: Config, actions: seq<Action>)
    ensures
      var s := Run(c, actions);
      match SinceSave(c, actions)
      case None => s.m.refreshDeadline == 0 && s.armed == map[]
      case Some(n) => s.now + c.refreshDelay == s.m.refreshDeadline + n
  {
    if actions != [] {
      var before, a := actions[..|actions| - 1], actions[|actions| - 1];
      DeadlineFollowsSave(c, before);
      if !a.AcceptSave? && Enabled(Run(c, before), a) {
        if OfClient(a) || OfTimer(a) || OfSession(a) {
          DeadlineStays(c, Run(c, before), a);
        } else {
          DeadlineWaits(c, Run(c, before), a);
        }
      }
    }
  }

  lemma DeadlineStays(c: Config, s: State, a: Action)
    requires Enabled(s, a) && !a.AcceptSave? && (OfClient(a) || OfTimer(a) || OfSession(a))
    ensures Apply(c, s, a).m.refreshDeadline == s.m.refreshDeadline
    ensures Apply(c, s, a).now == s.now + if a.Tick? then a.delta else 0
    ensures s.armed == map[] ==> Apply(c, s, a).armed == map[]
  {
  }

  lemma DeadlineWaits(c: Config, s: State, a: Action)
    requires Enabled(s, a) && (OfWait(a) || a.Decide? || a.CheckToken?)
    ensures
      var t := Apply(c, s, a);
      t.m.refreshDeadline == s.m.refreshDeadline && t.now == s.now && t.armed == s.armed
  {
  }

  /**
   A timer that runs releases its epoch exactly when a run is active and there has been no save or
   stop after the one that armed it; that save is then at least the refresh delay ago.
   */
  lemma ReleasesAreDebounced(c: Config, actions: seq<Action>, epoch: nat)
    requires Enabled(Run(c, actions), FireTimer(epoch))
    ensures
      var s, t := Run(c, actions), Apply(c, Run(c, actions), FireTimer(epoch));
      if s.m.active && epoch == Bumps(s.history) then
        && t.history == After(s.history, Released(epoch))
        && t.m == s.m.(refreshPending := true, releasedEpoch := epoch)
        && SinceSave(c, actions).Some? && SinceSave(c, actions).value >= c.refreshDelay
      else
        t.history == After(s.history, TimerSpent(epoch)) && t.m == s.m
  {
    WakeRun(c, actions);
    PublicationRun(c, actions);
    DeadlineFollowsSave(c, actions);
  }
}
