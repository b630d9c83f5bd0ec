/** When a supervisor that waits can sleep through a released refresh: exactly where the guard of its check fails. */
module SupervisorSleep {
  import opened Prelude
  import opened Sections
  import opened Supervisor
  import opened SupervisorLaws
  import opened SupervisorWake

  // ---------------------------------------------------------------------------------------------
  // Running on
  // ---------------------------------------------------------------------------------------------

  /** Running on from a state. */
  ghost function RunFrom(c: Config, s: State, actions: seq<Action>): State
    decreases |actions|
  {
    if actions == [] then s else RunFrom(c, Step(c, s, actions[0]), actions[1..])
  }

  lemma {:induction false} RunSplits(c: Config, actions: seq<Action>, more: seq<Action>)
    ensures Run(c, actions + more) == RunFrom(c, Run(c, actions), more)
    decreases |more|
  {
    if more == [] {
      assert actions + more == actions;
    } else {
      var longer := actions + [more[0]];
      assert longer[..|actions|] == actions;
      assert actions + more == longer + more[1..];
      RunSplits(c, longer, more[1..]);
    }
  }

  lemma RunFirst(c: Config, s: State, a: Action, more: seq<Action>)
    ensures RunFrom(c, s, [a] + more) == RunFrom(c, Step(c, s, a), more)
  {
    assert ([a] + more)[1..] == more;
  }

  lemma {:induction false} RunJoins(c: Config, s: State, first: seq<Action>, second: seq<Action>)
    ensures RunFrom(c, s, first + second) == RunFrom(c, RunFrom(c, s, first), second)
    decreases |first|
  {
    if first == [] {
      assert first + second == second;
    } else {
      assert first + second == [first[0]] + (first[1..] + second);
      RunFirst(c, s, first[0], first[1..] + second);
      RunJoins(c, Step(c, s, first[0]), first[1..], second);
    }
  }

  lemma RunTwo(c: Config, s: State, a: Action, b: Action)
    ensures RunFrom(c, s, [a, b]) == Step(c, Step(c, s, a), b)
  {
    assert [a, b] == [a] + ([b] + []);
    RunFirst(c, s, a, [b] + []);
    RunFirst(c, Step(c, s, a), b, []);
  }

  lemma RunFour(c: Config, s: State, a: Action, b: Action, d: Action, e: Action)
    ensures RunFrom(c, s, [a, b, d, e]) == Step(c, Step(c, Step(c, Step(c, s, a), b), d), e)
  {
    assert [a, b] + [d, e] == [a, b, d, e];
    RunJoins(c, s, [a, b], [d, e]);
    RunTwo(c, s, a, b);
    RunTwo(c, Step(c, Step(c, s, a), b), d, e);
  }

  // ---------------------------------------------------------------------------------------------
  // Sleeping on
  // ---------------------------------------------------------------------------------------------

  /** A refresh sits released and unconsumed while the supervisor is blocked and nothing will wake it. */
  ghost predicate Oversleeps(s: State) {
    && s.loop.Blocked?
    && ReleasedUnconsumed(s.history)
    && !s.token
    && !SendPending(s.callbacks, s.m.startId)
  }

  /** Time, timers and tokens go on; nobody saves, stops, cancels or lets a backoff end. */
  predicate SleepsOn(a: Action) {
    a.Tick? || OfTimer(a) || a.ReceiveWake? || a.CheckToken?
  }

  predicate AllSleepOn(actions: seq<Action>) {
    forall i :: 0 <= i < |actions| ==> SleepsOn(actions[i])
  }

  ghost predicate MayOversleep(c: Config, s: State) {
    exists more :: AllSleepOn(more) && Oversleeps(RunFrom(c, s, more))
  }

  /** The wait cannot be satisfied by the newest epoch, although that is or will be released. */
  ghost predicate WaitsInVain(s: State)
    requires s.loop.Blocked?
  {
    && s.loop.after == s.m.refreshEpoch
    && (Outstanding(s.history, s.m.refreshEpoch) || ReleasedUnconsumed(s.history))
  }

  // ---------------------------------------------------------------------------------------------
  // No wait but a vain one oversleeps
  // ---------------------------------------------------------------------------------------------

  /** The supervisor waits past an older epoch, or for nothing that could be released, or not at all. */
  ghost predicate Safe(s: State) {
    && TimerInv(s) && WakeGuarantee(s) && !StopSeen(s.history)
    && match s.loop
       case Blocked(_, after, _, _) => after < s.m.refreshEpoch || (!s.m.refreshPending && s.m.refreshEpoch !in s.armed)
       case Woken(_, after, _, _) => after < s.m.refreshEpoch || (!s.m.refreshPending && s.m.refreshEpoch !in s.armed)
       case Top => true
       case Exiting => true
       case _ => false
  }

  lemma SafeTimer(c: Config, s: State, a: Action)
    requires Safe(s) && Enabled(s, a) && (a.Tick? || OfTimer(a))
    ensures Safe(Apply(c, s, a))
  {
    WakeStep(c, s, a);
    var t := Apply(c, s, a);
    assert t.loop == s.loop;
    assert t.history == s.history || t.history.past == s.history;
  }

  lemma SafeToken(c: Config, s: State, a: Action)
    requires Safe(s) && Enabled(s, a) && (a.ReceiveWake? || a.CheckToken?)
    ensures Safe(Apply(c, s, a))
  {
    WakeStep(c, s, a);
    if a.CheckToken? && WakeValid(s.m, s.loop.after, s.now) {
      Resumed(c, s);
    }
  }

  lemma Resumed(c: Config, s: State)
    requires s.loop.Woken? && !StopSeen(s.history)
    ensures
      var t := Enact(TakeRefresh(s), Resume(c, s));
      (t.loop.Top? || t.loop.Exiting?) && !StopSeen(t.history)
  {
    var taken := TakeRefresh(s).history;
    assert !StopSeen(taken);
    assert !StopSeen(After(taken, OutageAnnounced));
  }

  lemma {:induction false} SafeSleeps(c: Config, s: State, more: seq<Action>)
    requires Safe(s) && AllSleepOn(more)
    ensures Safe(RunFrom(c, s, more))
    decreases |more|
  {
    if more != [] {
      var a := more[0];
      assert SleepsOn(a);
      if Enabled(s, a) {
        if a.Tick? || OfTimer(a) {
          SafeTimer(c, s, a);
        } else {
          SafeToken(c, s, a);
        }
      }
      SafeSleeps(c, Step(c, s, a), more[1..]);
    }
  }

  lemma SafeIsAwake(s: State)
    requires Safe(s)
    ensures !Oversleeps(s)
  {
  }

  // ---------------------------------------------------------------------------------------------
  // Every vain wait can oversleep
  // ---------------------------------------------------------------------------------------------

  /** The armed timer of the epoch waited for runs. */
  lemma TimerReleases(c: Config, s: State) returns (more: seq<Action>)
    requires TimerInv(s) && s.loop.Blocked? && s.loop.after == s.m.refreshEpoch && s.m.refreshEpoch in s.armed
    ensures AllSleepOn(more)
    ensures
      var t := RunFrom(c, s, more);
      t.loop == s.loop && t.m.refreshEpoch == s.m.refreshEpoch && t.m.startId == s.m.startId
      && ReleasedUnconsumed(t.history)
  {
    var e := s.m.refreshEpoch;
    more := [Tick(s.m.refreshDeadline), FireTimer(e)];
    RunTwo(c, s, more[0], more[1]);
    var ticked := Apply(c, s, more[0]);
    assert Releases(ticked.m, e, ticked.now);
  }

  /** Every callback of this run sends. */
  lemma {:induction false} CallbacksSend(c: Config, s: State) returns (more: seq<Action>)
    ensures AllSleepOn(more)
    ensures
      var t := RunFrom(c, s, more);
      t.loop == s.loop && t.m == s.m && t.history == s.history && !SendPending(t.callbacks, s.m.startId)
    decreases |s.callbacks.Keys|
  {
    if SendPending(s.callbacks, s.m.startId) {
      var e :| e in s.callbacks && s.callbacks[e].run == s.m.startId;
      var first, t := CallbackSends(c, s, e);
      var rest := CallbacksSend(c, t);
      RunJoins(c, s, first, rest);
      more := first + rest;
    } else {
      more := [];
    }
  }

  /** One callback cancels its session, if it has not yet, and sends. */
  lemma CallbackSends(c: Config, s: State, e: nat) returns (more: seq<Action>, t: State)
    requires e in s.callbacks
    ensures AllSleepOn(more) && t == RunFrom(c, s, more)
    ensures t.loop == s.loop && t.m == s.m && t.history == s.history
    ensures |t.callbacks.Keys| < |s.callbacks.Keys|
  {
    if s.callbacks[e].cancelled {
      more := [SendWake(e)];
      assert more == [SendWake(e)] + [];
      RunFirst(c, s, SendWake(e), []);
    } else {
      more := [CancelSession(e), SendWake(e)];
      RunTwo(c, s, CancelSession(e), SendWake(e));
    }
    t := RunFrom(c, s, more);
    assert t.callbacks.Keys == s.callbacks.Keys - {e};
  }

  /** A queued token is received, found to be for an epoch not past the one waited for, and gone. */
  lemma TokenIsWasted(c: Config, s: State) returns (more: seq<Action>)
    requires s.loop.Blocked? && s.loop.after == s.m.refreshEpoch && ReleasedUnconsumed(s.history)
    requires !SendPending(s.callbacks, s.m.startId)
    ensures AllSleepOn(more) && Oversleeps(RunFrom(c, s, more))
  {
    if s.token {
      more := [ReceiveWake, CheckToken];
      RunTwo(c, s, ReceiveWake, CheckToken);
      var woken := Apply(c, s, ReceiveWake);
      assert !WakeValid(woken.m, woken.loop.after, woken.now);
    } else {
      more := [];
    }
  }

  lemma ReleasedWaitOversleeps(c: Config, s: State)
    requires s.loop.Blocked? && s.loop.after == s.m.refreshEpoch && ReleasedUnconsumed(s.history)
    ensures MayOversleep(c, s)
  {
    var first := CallbacksSend(c, s);
    var second := TokenIsWasted(c, RunFrom(c, s, first));
    RunJoins(c, s, first, second);
    assert AllSleepOn(first + second);
  }

  lemma VainWaitOversleeps(c: Config, s: State)
    requires TimerInv(s) && s.loop.Blocked? && WaitsInVain(s)
    ensures MayOversleep(c, s)
  {
    if ReleasedUnconsumed(s.history) {
      ReleasedWaitOversleeps(c, s);
    } else {
      var first := TimerReleases(c, s);
      var t := RunFrom(c, s, first);
      ReleasedWaitOversleeps(c, t);
      var second :| AllSleepOn(second) && Oversleeps(RunFrom(c, t, second));
      RunJoins(c, s, first, second);
      assert AllSleepOn(first + second);
    }
  }

  // ---------------------------------------------------------------------------------------------
  // The theorem and what follows from it
  // ---------------------------------------------------------------------------------------------

  /**
   In every interleaving, a supervisor that is blocked and not stopped can come to oversleep, just by
   time, timers and tokens going on, if and only if it waits past the newest epoch while the timer of
   that epoch is still to run or its release is not taken. The first half is the guard that a wake
   token is checked with: the newest epoch is greater than the one waited past.
   */
  lemma OversleepsExactly(c: Config, actions: seq<Action>)
    requires Run(c, actions).loop.Blocked? && !StopSeen(Run(c, actions).history)
    ensures MayOversleep(c, Run(c, actions)) <==> WaitsInVain(Run(c, actions))
  {
    var s := Run(c, actions);
    WakeRun(c, actions);
    if WaitsInVain(s) {
      VainWaitOversleeps(c, s);
    } else {
      assert Safe(s);
      forall more | AllSleepOn(more) ensures !Oversleeps(RunFrom(c, s, more)) {
        SafeSleeps(c, s, more);
        SafeIsAwake(RunFrom(c, s, more));
      }
    }
  }

  lemma OversleepingIsPossible(c: Config, s: State)
    requires Oversleeps(s)
    ensures MayOversleep(c, s)
  {
    assert AllSleepOn([]) && RunFrom(c, s, []) == s;
  }

  /** No wake-up is lost while the supervisor waits past an epoch older than the newest. */
  lemma NoLostWakeup(c: Config, actions: seq<Action>)
    requires
      var s := Run(c, actions);
      !StopSeen(s.history) && (s.loop.Blocked? ==> s.loop.after != s.m.refreshEpoch)
    ensures !Oversleeps(Run(c, actions))
  {
    var s := Run(c, actions);
    if s.loop.Blocked? {
      OversleepsExactly(c, actions);
      if Oversleeps(s) {
        OversleepingIsPossible(c, s);
      }
    }
  }

  /** Nor in any wait of a run whose latest attempt began when the timer of its epoch had run. */
  lemma NoLostWakeupOfSettled(c: Config, actions: seq<Action>)
    requires !StopSeen(Run(c, actions).history) && AttemptBeganSettled(Run(c, actions).history)
    ensures !MayOversleep(c, Run(c, actions)) || !Run(c, actions).loop.Blocked?
    ensures !Oversleeps(Run(c, actions))
  {
    var s := Run(c, actions);
    WakeRun(c, actions);
    if s.loop.Blocked? {
      assert !WaitsInVain(s);
      OversleepsExactly(c, actions);
      if Oversleeps(s) {
        OversleepingIsPossible(c, s);
      }
    }
  }
}
