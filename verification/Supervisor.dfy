/**
 The schema refresh protocol as a state machine.

 One action is one lock section of the manager, one channel operation, or one stretch of code of
 the supervisor goroutine that touches no shared field. An action that is not enabled leaves the
 state unchanged, so every sequence of actions is an interleaving. The run's history of
 observable events is part of the state, most recent event last.
 */
module Supervisor {
  import opened Prelude
  import opened Sections

  const BACKOFF_CAP: nat := 2_000_000_000 // nanoseconds

  /** `generation` is that of the cache the manager is created over. */
  datatype Config = Config(restartLimit: nat, backoffBase: nat, refreshDelay: nat, generation: nat)

  datatype Origin = FromDisk | FromWorker

  datatype SessionError = NoError | Failure | CleanupFailure

  /** Where the supervisor waits for a wake token. */
  datatype Site = AtTop | AtSuperseded | AtLimit | AtBackoff

  datatype Event =
    | RunStarted(epoch: nat)
    | Saved(epoch: nat)
    | Released(epoch: nat)
    | TimerSpent(epoch: nat)
    | StopRequested
    | Attempt(epoch: nat)
    | Published(origin: Origin, generation: nat)
    | LoadAnnounced(generation: nat)
    | Installed(generation: nat)
    | SessionEnded(loaded: bool, error: SessionError)
    | RefreshTaken(site: Option<Site>)
    | OutageAnnounced
    | BackedOff(delay: nat)

  datatype History = Nothing | After(past: History, event: Event)

  /** Progress of one call of `run`. */
  datatype Phase =
    | Loading
    | Refused
    | Accepted(generation: nat)
    | Announced(generation: nat)
    | Captured(generation: nat, authority: nat, epoch: nat)
    | Serving

  /** Control state of the supervisor goroutine. */
  datatype Loop =
    | Idle
    | Top
    | Between
    | Session(epoch: nat, session: nat, phase: Phase)
    | Ended(epoch: nat, loaded: bool, error: SessionError)
    | Settled(epoch: nat, current: nat, refresh: bool, loaded: bool, error: SessionError)
    | Blocked(site: Site, after: nat, loaded: bool, error: SessionError)
    | Woken(site: Site, after: nat, loaded: bool, error: SessionError)
    | Exiting

  /** A timer callback between its lock section and its send on the wake channel of `run`. */
  datatype Callback = Callback(run: nat, session: Option<nat>, cancelled: bool)

  datatype State = State(
    m: Shared,
    now: nat,
    armed: map<nat, nat>, // epoch of a save -> time its timer is due
    callbacks: map<nat, Callback>,
    token: bool, // the one slot of the current run's wake channel
    cancelledRuns: set<nat>,
    cancelledSessions: set<nat>,
    loaders: set<nat>, // runs whose background loader has not finished
    sessions: nat, // sessions begun
    loop: Loop,
    failures: nat,
    notified: bool,
    history: History)

  datatype Action =
    | Tick(delta: nat)
    | StartRun
    | AcceptSave
    | FireTimer(epoch: nat)
    | CancelSession(epoch: nat)
    | SendWake(epoch: nat)
    | StopLock
    | CancelRun(run: nat)
    | FinishLoader(run: nat, found: bool)
    | ReadEpochs
    | BeginAttempt
    | PublishGraph
    | AnnounceLoad
    | CapturePersist
    | InstallSnapshot
    | EndSession(loaded: bool, error: SessionError)
    | CollectSession
    | Decide
    | ReceiveWake
    | CheckToken
    | ExpireBackoff
    | NoticeCancel
    | ExitLoop

  predicate OfClient(a: Action) {
    a.Tick? || a.StartRun? || a.AcceptSave? || a.StopLock? || a.CancelRun? || a.FinishLoader?
  }

  predicate OfTimer(a: Action) {
    a.FireTimer? || a.CancelSession? || a.SendWake?
  }

  predicate OfSession(a: Action) {
    a.BeginAttempt? || a.PublishGraph? || a.AnnounceLoad? || a.CapturePersist? || a.InstallSnapshot? || a.EndSession?
  }

  predicate OfWait(a: Action) {
    a.ReadEpochs? || a.CollectSession? || a.ReceiveWake? || a.ExpireBackoff? || a.NoticeCancel? || a.ExitLoop?
  }

  function Init(c: Config): State {
    State(Fresh(c.generation), 0, map[], map[], false, {}, {}, {}, 0, Idle, 0, false, Nothing)
  }

  function Log(s: State, e: Event): State {
    s.(history := After(s.history, e))
  }

  function LogIf(h: History, condition: bool, e: Event): History {
    if condition then After(h, e) else h
  }

  predicate RunCancelled(s: State) {
    s.m.startId in s.cancelledRuns
  }

  predicate SessionCancelled(s: State, session: nat) {
    RunCancelled(s) || session in s.cancelledSessions
  }

  function Pow2(n: nat): nat {
    if n == 0 then 1 else 2 * Pow2(n - 1)
  }

  function BackoffDelay(c: Config, failures: nat): nat
    requires failures > 0
  {
    var delay := c.backoffBase * Pow2(failures - 1);
    if delay > BACKOFF_CAP then BACKOFF_CAP else delay
  }

  predicate Enabled(s: State, a: Action) {
    match a
    case Tick(_) => true
    case StartRun => true
    case AcceptSave => true
    case FireTimer(e) => e in s.armed && s.now >= s.armed[e]
    case CancelSession(e) => e in s.callbacks && !s.callbacks[e].cancelled
    case SendWake(e) => e in s.callbacks && s.callbacks[e].cancelled
    case StopLock => s.m.startId > 0
    case CancelRun(run) => run <= s.m.startId
    case FinishLoader(run, _) => run in s.loaders
    case ReadEpochs => s.loop.Top?
    case BeginAttempt => s.loop.Between?
    case PublishGraph => s.loop.Session? && s.loop.phase.Loading?
    case AnnounceLoad => s.loop.Session? && s.loop.phase.Accepted?
    case CapturePersist => s.loop.Session? && s.loop.phase.Announced?
    case InstallSnapshot => s.loop.Session? && s.loop.phase.Captured?
    case EndSession(loaded, error) =>
      && s.loop.Session?
      && !s.loop.phase.Accepted?
      && (s.loop.phase.Loading? || s.loop.phase.Refused? ==> !loaded)
      && (s.loop.phase.Refused? ==> !error.Failure?)
      && (error.NoError? ==> s.loop.phase.Refused? || SessionCancelled(s, s.loop.session))
    case CollectSession => s.loop.Ended?
    case Decide => s.loop.Settled?
    case ReceiveWake => s.loop.Blocked? && s.token
    case CheckToken => s.loop.Woken?
    case ExpireBackoff => s.loop.Blocked? && s.loop.site.AtBackoff?
    case NoticeCancel => s.loop.Blocked? && RunCancelled(s)
    case ExitLoop => s.loop.Exiting?
  }

  /** Where the loop goes after a session, its two local counters, and the events it emits on the way. */
  datatype Verdict = Verdict(loop: Loop, failures: nat, notified: bool, outage: bool, delay: Option<nat>)

  /** What the loop does with a finished session once it knows whether a refresh was taken. */
  function Conclude(c: Config, failures: nat, notified: bool, refresh: bool,
                    epoch: nat, current: nat, loaded: bool, error: SessionError): (v: Verdict)
    ensures v.loop.Top? || v.loop.Blocked? || v.loop.Exiting?
  {
    if refresh then
      if error.CleanupFailure? then Verdict(Exiting, failures, true, !notified, None)
      else Verdict(Top, 0, notified, false, None)
    else if error.NoError? then Verdict(Exiting, failures, notified, false, None)
    else if error.CleanupFailure? then Verdict(Exiting, failures, notified, !notified, None)
    else
      var count := if loaded then 1 else failures + 1;
      var outage := loaded || !notified;
      if count > c.restartLimit
      then Verdict(Blocked(AtLimit, current, loaded, error), count, true, outage, None)
      else Verdict(Blocked(AtBackoff, epoch, loaded, error), count, true, outage, Some(BackoffDelay(c, count)))
  }

  function Enact(s: State, v: Verdict): State {
    var announced := LogIf(s.history, v.outage, OutageAnnounced);
    s.(loop := v.loop, failures := v.failures, notified := v.notified,
    history := if v.delay.Some? then After(announced, BackedOff(v.delay.value)) else announced)
  }

  /** Consume the refresh that a wake token stood for. */
  function TakeRefresh(s: State): State
    requires s.loop.Woken?
  {
    Log(s, RefreshTaken(Some(s.loop.site))).(m := CheckWake(s.m, s.loop.after, s.now))
  }

  /** Where the loop goes once it has taken the refresh it waited for. */
  function Resume(c: Config, s: State): (v: Verdict)
    requires s.loop.Woken?
    ensures v.loop.Top? || v.loop.Exiting?
  {
    match s.loop.site
    case AtTop => Verdict(Top, s.failures, s.notified, false, None)
    case AtSuperseded => Conclude(c, s.failures, s.notified, true, s.loop.after, s.loop.after, s.loop.loaded,
                                  s.loop.error)
    case AtLimit => Verdict(Top, 0, s.notified, false, None)
    case AtBackoff => Verdict(Top, 0, s.notified, false, None)
  }

  function Apply(c: Config, s: State, a: Action): State
    requires Enabled(s, a)
  {
    match a
    case Tick(delta) => s.(now := s.now + delta)
    case StartRun =>
      if s.m.active then s
      else
        Log(s, RunStarted(s.m.refreshEpoch)).(
        m := Start(s.m), token := false, loaders := s.loaders + {s.m.startId + 1},
        loop := Top, failures := 0, notified := false)
    case AcceptSave =>
      if !s.m.active then s
      else
        var m := Save(s.m, s.now, c.refreshDelay);
        Log(s, Saved(m.refreshEpoch)).(m := m, armed := s.armed[m.refreshEpoch := m.refreshDeadline])
    case FireTimer(e) =>
      var releases := Releases(s.m, e, s.now);
      Log(s, if releases then Released(e) else TimerSpent(e)).(
      m := Fire(s.m, e, s.now), armed := s.armed - {e},
      callbacks := if releases then s.callbacks[e := Callback(s.m.startId, s.m.sessionCancel, false)] else s.callbacks)
    case CancelSession(e) =>
      var callback := s.callbacks[e];
      s.(callbacks := s.callbacks[e := callback.(cancelled := true)],
      cancelledSessions := s.cancelledSessions + match callback.session case None => {} case Some(id) => {id})
    case SendWake(e) =>
      s.(callbacks := s.callbacks - {e}, token := s.token || s.callbacks[e].run == s.m.startId)
    case StopLock => Log(s, StopRequested).(m := StopBump(s.m))
    case CancelRun(run) => s.(cancelledRuns := s.cancelledRuns + {run})
    case FinishLoader(run, found) =>
      var m := if found then PublishProvisional(s.m, run, run in s.cancelledRuns) else s.m;
      s.(m := m, loaders := s.loaders - {run},
      history := LogIf(s.history, m != s.m, Published(FromDisk, m.generation)))
    case ReadEpochs =>
      s.(loop := if s.m.refreshEpoch > s.m.releasedEpoch
      then Blocked(AtTop, s.m.releasedEpoch, false, NoError)
      else Between)
    case BeginAttempt =>
      Log(s, Attempt(s.m.refreshEpoch)).(
      m := Begin(s.m, s.sessions), sessions := s.sessions + 1,
      loop := Session(s.m.refreshEpoch, s.sessions, Loading))
    case PublishGraph =>
      var cancelled := SessionCancelled(s, s.loop.session);
      var m := PublishRuntime(s.m, cancelled);
      var accepted := AdmitsRuntime(s.m, cancelled);
      s.(m := m, loop := s.loop.(phase := if accepted then Accepted(m.generation) else Refused),
      history := LogIf(s.history, accepted, Published(FromWorker, m.generation)))
    case AnnounceLoad =>
      Log(s, LoadAnnounced(s.loop.phase.generation)).(
      notified := false, loop := s.loop.(phase := Announced(s.loop.phase.generation)))
    case CapturePersist =>
      s.(loop := s.loop.(phase := Captured(s.loop.phase.generation, s.m.publishedAuthority, s.m.activeEpoch)))
    case InstallSnapshot =>
      var phase := s.loop.phase;
      var admitted := AdmitsInstall(s.m, SessionCancelled(s, s.loop.session), phase.authority, phase.epoch);
      s.(loop := s.loop.(phase := Serving), history := LogIf(s.history, admitted, Installed(phase.generation)))
    case EndSession(loaded, error) =>
      Log(s, SessionEnded(loaded, error)).(loop := Ended(s.loop.epoch, loaded, error))
    case CollectSession =>
      s.(m := Collect(s.m),
      loop := Settled(s.loop.epoch, s.m.refreshEpoch, s.m.refreshPending, s.loop.loaded, s.loop.error),
      history := LogIf(s.history, s.m.refreshPending, RefreshTaken(None)))
    case Decide =>
      var l := s.loop;
      if RunCancelled(s) then s.(loop := Exiting)
      else if l.epoch != l.current && !l.refresh then s.(loop := Blocked(AtSuperseded, l.epoch, l.loaded, l.error))
      else Enact(s, Conclude(c, s.failures, s.notified, l.refresh, l.epoch, l.current, l.loaded, l.error))
    case ReceiveWake =>
      s.(token := false, loop := Woken(s.loop.site, s.loop.after, s.loop.loaded, s.loop.error))
    case CheckToken =>
      var l := s.loop;
      if !WakeValid(s.m, l.after, s.now) then s.(loop := Blocked(l.site, l.after, l.loaded, l.error))
      else Enact(TakeRefresh(s), Resume(c, s))
    case ExpireBackoff => s.(loop := Top)
    case NoticeCancel => s.(loop := Exiting)
    case ExitLoop => s.(m := Exit(s.m), loop := Idle)
  }

  function Step(c: Config, s: State, a: Action): State {
    if Enabled(s, a) then Apply(c, s, a) else s
  }

  /** The state after an arbitrary interleaving. */
  function Run(c: Config, actions: seq<Action>): State {
    if actions == [] then Init(c)
    else Step(c, Run(c, actions[..|actions| - 1]), actions[|actions| - 1])
  }
}
