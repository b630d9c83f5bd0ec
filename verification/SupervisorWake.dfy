/** What holds of timers, callbacks and wake tokens in every run. */
module SupervisorWake {
  import opened Prelude
  import opened Sections
  import opened Supervisor
  import opened SupervisorLaws

  /** Some timer callback of this run has still to send on the wake channel. */
  ghost predicate SendPending(callbacks: map<nat, Callback>, run: nat) {
    exists e :: e in callbacks && callbacks[e].run == run
  }

  /** Each save's timer is armed until it runs, and the newest one is due at the refresh deadline. */
  ghost predicate TimerInv(s: State) {
    && s.m.startId == Starts(s.history)
    && s.m.refreshPending == ReleasedUnconsumed(s.history)
    && s.m.releasedEpoch == LatestReleased(s.history) <= s.m.refreshEpoch
    && (s.m.active <==> !s.loop.Idle?)
    && (forall e :: e in s.armed <==> Outstanding(s.history, e))
    && (forall e :: e in s.armed ==> e <= s.m.refreshEpoch)
    && (s.m.refreshEpoch in s.armed ==> s.armed[s.m.refreshEpoch] == s.m.refreshDeadline)
  }

  /** No released refresh can be waiting at `epoch`: it was overtaken, or its timer has run and was taken. */
  ghost predicate Passed(s: State, epoch: nat) {
    epoch < s.m.refreshEpoch || (epoch == s.m.refreshEpoch && epoch !in s.armed)
  }

  /** A release that is waiting is the newest and due, and is announced to a supervisor that waits for it. */
  ghost predicate WakeInv(s: State) {
    && (s.m.refreshPending ==>
          s.m.releasedEpoch == s.m.refreshEpoch && s.now >= s.m.refreshDeadline && s.m.refreshEpoch !in s.armed)
    && match s.loop
       case Session(epoch, _, _) => epoch <= s.m.refreshEpoch
       case Ended(epoch, _, _) => epoch <= s.m.refreshEpoch
       case Settled(epoch, current, _, _, _) => epoch <= current <= s.m.refreshEpoch
                                                && (s.m.refreshPending ==> Announced(s))
       case Blocked(_, after, _, _) =>
         after <= s.m.refreshEpoch && (s.m.refreshPending && after < s.m.refreshEpoch ==> Announced(s))
       case Woken(_, after, _, _) => after <= s.m.refreshEpoch
       case _ => true
  }

  /** A token is queued, or a callback of this run is going to queue one. */
  ghost predicate Announced(s: State) {
    s.token || SendPending(s.callbacks, s.m.startId)
  }

  /** No release is waiting at the epoch of the latest attempt, and none can come. */
  ghost predicate SettledInv(s: State) {
    match s.loop
    case Session(epoch, _, _) => Passed(s, epoch)
    case Ended(epoch, _, _) => Passed(s, epoch)
    case Settled(epoch, _, _, _, _) => Taken(s, epoch)
    case Blocked(_, after, _, _) => Taken(s, after)
    case Woken(_, after, _, _) => Taken(s, after)
    case _ => true
  }

  ghost predicate Taken(s: State, epoch: nat) {
    Passed(s, epoch) && (epoch == s.m.refreshEpoch ==> !s.m.refreshPending)
  }

  ghost predicate WakeGuarantee(s: State) {
    && (!StopSeen(s.history) ==> WakeInv(s))
    && (!StopSeen(s.history) && AttemptBeganSettled(s.history) ==> SettledInv(s))
  }

  lemma ClientWake(c: Config, s: State, a: Action)
    requires WakeGuarantee(s) && TimerInv(s) && Enabled(s, a) && OfClient(a)
    ensures WakeGuarantee(Apply(c, s, a))
  {
    var t := Apply(c, s, a);
    assert t.history == s.history || t.history.past == s.history;
  }

  lemma ClientTimers(c: Config, s: State, a: Action)
    requires TimerInv(s) && Enabled(s, a) && OfClient(a)
    ensures TimerInv(Apply(c, s, a))
  {
    var t := Apply(c, s, a);
    assert t.history == s.history || t.history.past == s.history;
  }

  lemma SessionWake(c: Config, s: State, a: Action)
    requires WakeGuarantee(s) && TimerInv(s) && Enabled(s, a) && OfSession(a)
    ensures WakeGuarantee(Apply(c, s, a))
  {
    var t := Apply(c, s, a);
    assert t.history == s.history || t.history.past == s.history;
  }

  lemma SessionTimers(c: Config, s: State, a: Action)
    requires TimerInv(s) && Enabled(s, a) && OfSession(a)
    ensures TimerInv(Apply(c, s, a))
  {
    var t := Apply(c, s, a);
    assert t.history == s.history || t.history.past == s.history;
  }

  lemma WaitWake(c: Config, s: State, a: Action)
    requires WakeGuarantee(s) && TimerInv(s) && Enabled(s, a) && OfWait(a)
    ensures WakeGuarantee(Apply(c, s, a))
  {
    var t := Apply(c, s, a);
    assert t.history == s.history || t.history.past == s.history;
  }

  lemma WaitTimers(c: Config, s: State, a: Action)
    requires TimerInv(s) && Enabled(s, a) && OfWait(a)
    ensures TimerInv(Apply(c, s, a))
  {
    var t := Apply(c, s, a);
    assert t.history == s.history || t.history.past == s.history;
  }

  /** A verdict that waits at the session's own epoch, or waits no more, loses no token. */
  lemma EnactKeepsWake(s: State, v: Verdict)
    requires WakeGuarantee(s) && (s.loop.Settled? || s.loop.Woken?)
    requires v.loop.Blocked? ==> s.loop.Settled? && v.loop.after == s.loop.epoch
    requires v.loop.Top? || v.loop.Exiting? || v.loop.Blocked?
    ensures WakeGuarantee(Enact(s, v))
  {
    var t := Enact(s, v);
    if t.history != s.history {
      var past := t.history.past;
      assert StopSeen(past) ==> StopSeen(t.history);
      assert AttemptBeganSettled(t.history) ==> AttemptBeganSettled(past);
    }
  }

  lemma DecideWake(c: Config, s: State)
    requires WakeGuarantee(s) && TimerInv(s) && s.loop.Settled?
    ensures WakeGuarantee(Apply(c, s, Decide))
  {
    var l := s.loop;
    if !RunCancelled(s) && (l.epoch == l.current || l.refresh) {
      EnactKeepsWake(s, Conclude(c, s.failures, s.notified, l.refresh, l.epoch, l.current, l.loaded, l.error));
    }
  }

  lemma TimerWake(c: Config, s: State, a: Action)
    requires WakeGuarantee(s) && TimerInv(s) && Enabled(s, a) && OfTimer(a)
    ensures WakeGuarantee(Apply(c, s, a))
  {
    var t := Apply(c, s, a);
    assert t.history == s.history || t.history.past == s.history;
    assert a.epoch in t.callbacks || a.epoch !in t.callbacks;
    if s.m.refreshPending && SendPending(s.callbacks, s.m.startId) {
      var e :| e in s.callbacks && s.callbacks[e].run == s.m.startId;
      assert e in t.callbacks || t.token;
    }
  }

  lemma TokenWake(c: Config, s: State)
    requires WakeGuarantee(s) && TimerInv(s) && s.loop.Woken?
    ensures WakeGuarantee(Apply(c, s, CheckToken))
  {
  }

  lemma TimerTimers(c: Config, s: State, a: Action)
    requires TimerInv(s) && Enabled(s, a) && OfTimer(a)
    ensures TimerInv(Apply(c, s, a))
  {
    var t := Apply(c, s, a);
    assert t.loop == s.loop;
    assert t.history == s.history || t.history.past == s.history;
  }

  lemma EnactKeepsTimers(s: State, v: Verdict)
    requires TimerInv(s) && s.m.active && !v.loop.Idle?
    ensures TimerInv(Enact(s, v))
  {
  }

  lemma DecideTimers(c: Config, s: State)
    requires TimerInv(s) && s.loop.Settled?
    ensures TimerInv(Apply(c, s, Decide))
  {
    var l := s.loop;
    EnactKeepsTimers(s, Conclude(c, s.failures, s.notified, l.refresh, l.epoch, l.current, l.loaded, l.error));
  }

  lemma TokenTimers(c: Config, s: State)
    requires TimerInv(s) && s.loop.Woken?
    ensures TimerInv(Apply(c, s, CheckToken))
  {
    var l := s.loop;
    if WakeValid(s.m, l.after, s.now) {
      var t := TakeRefresh(s);
      assert TimerInv(t);
      EnactKeepsTimers(t, Resume(c, s));
    }
  }

  lemma WakeStep(c: Config, s: State, a: Action)
    requires WakeGuarantee(s) && TimerInv(s)
    ensures WakeGuarantee(Step(c, s, a)) && TimerInv(Step(c, s, a))
  {
    if Enabled(s, a) {
      if OfClient(a) {
        ClientWake(c, s, a);
        ClientTimers(c, s, a);
      } else if OfTimer(a) {
        TimerWake(c, s, a);
        TimerTimers(c, s, a);
      } else if OfSession(a) {
        SessionWake(c, s, a);
        SessionTimers(c, s, a);
      } else if OfWait(a) {
        WaitWake(c, s, a);
        WaitTimers(c, s, a);
      } else if a.Decide? {
        DecideWake(c, s);
        DecideTimers(c, s);
      } else {
        TokenWake(c, s);
        TokenTimers(c, s);
      }
    }
  }

  lemma {:induction false} WakeRun(c: Config, actions: seq<Action>)
    ensures WakeGuarantee(Run(c, actions)) && TimerInv(Run(c, actions))
  {
    if actions != [] {
      WakeRun(c, actions[..|actions| - 1]);
      WakeStep(c, Run(c, actions[..|actions| - 1]), actions[|actions| - 1]);
    }
  }
}
