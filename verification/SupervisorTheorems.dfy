/** What publication and restarts promise, for every interleaving. */
module SupervisorTheorems {
  import opened Prelude
  import opened Sections
  import opened Supervisor
  import opened SupervisorLaws

  // ---------------------------------------------------------------------------------------------
  // Publication
  // ---------------------------------------------------------------------------------------------

  lemma FreshPublications(c: Config, actions: seq<Action>)
    ensures Freshness(Run(c, actions).history)
  {
    PublicationRun(c, actions);
  }

  /**
   What publishing a worker's graph does, told by the history alone: it is accepted exactly when
   the session is not cancelled, nothing was saved since it began, its epoch is the latest
   released one and no release is waiting; otherwise cache and authority stay as they were.
   */
  lemma PublicationDecided(c: Config, actions: seq<Action>)
    requires Enabled(Run(c, actions), PublishGraph)
    ensures Published(c, Run(c, actions), Apply(c, Run(c, actions), PublishGraph), Demanded(Run(c, actions)))
  {
    PublicationRun(c, actions);
    DecidedAt(c, Run(c, actions));
  }

  /** The history asks for the publication. */
  ghost predicate Demanded(s: State)
    requires s.loop.Session?
  {
    && !SessionCancelled(s, s.loop.session)
    && QuietSinceAttempt(s.history)
    && LatestAttempt(s.history) == Some(LatestReleased(s.history))
    && !ReleasedUnconsumed(s.history)
  }

  /** The graph is published as the next generation, with runtime authority; or nothing happens. */
  ghost predicate Published(c: Config, s: State, t: State, accepted: bool) {
    if accepted then
      && t.history == After(s.history, Event.Published(FromWorker, c.generation + Publications(s.history) + 1))
      && t.m == s.m.(generation := s.m.generation + 1, authority := Runtime,
                publishedAuthority := s.m.publishedAuthority + 1)
    else t.m == s.m && t.history == s.history
  }

  lemma AdmittedIsDemanded(c: Config, s: State)
    requires PublicationInv(c, s) && s.loop.Session? && s.loop.phase.Loading?
    ensures AdmitsRuntime(s.m, SessionCancelled(s, s.loop.session)) == Demanded(s)
  {
  }

  lemma DecidedAt(c: Config, s: State)
    requires PublicationInv(c, s) && Enabled(s, PublishGraph)
    ensures Published(c, s, Apply(c, s, PublishGraph), Demanded(s))
  {
    AdmittedIsDemanded(c, s);
  }

  /**
   What the background loader does with what it found on disk: it is published, as generation 1, exactly
   when its run is still the one that is active, is not cancelled, and no graph has come before.
   */
  lemma ProvisionalDecided(c: Config, actions: seq<Action>, run: nat, found: bool)
    requires run in Run(c, actions).loaders
    ensures Enabled(Run(c, actions), FinishLoader(run, found))
    ensures PublishedFromDisk(c, Run(c, actions), run, found, Apply(c, Run(c, actions), FinishLoader(run, found)))
  {
    PublicationRun(c, actions);
    DecidedFromDisk(c, Run(c, actions), run, found);
  }

  ghost predicate PublishedFromDisk(c: Config, s: State, run: nat, found: bool, t: State) {
    if found && s.m.active && run == Starts(s.history) && run !in s.cancelledRuns
       && c.generation == 0 && Publications(s.history) == 0
    then
      && t.history == After(s.history, Event.Published(FromDisk, 1))
      && t.m == s.m.(generation := 1, authority := Provisional)
    else t.history == s.history && t.m == s.m
  }

  lemma DecidedFromDisk(c: Config, s: State, run: nat, found: bool)
    requires CountersInv(c, s) && run in s.loaders
    ensures PublishedFromDisk(c, s, run, found, Apply(c, s, FinishLoader(run, found)))
  {
    assert AdmitsProvisional(s.m, run, run in s.cancelledRuns) ==
           (run !in s.cancelledRuns && s.m.active && run == Starts(s.history)
            && c.generation == 0 && Publications(s.history) == 0);
  }

  /** Every run that has started has its loader once: it is waiting or has finished. */
  lemma {:induction false} LoadersComeOnce(c: Config, actions: seq<Action>, run: nat)
    ensures
      var s := Run(c, actions);
      && (LoaderFinished(c, actions, run) ==> 1 <= run <= s.m.startId)
      && (run in s.loaders <==> 1 <= run <= s.m.startId && !LoaderFinished(c, actions, run))
      && (forall found :: Enabled(s, FinishLoader(run, found)) <==> run in s.loaders)
  {
    if actions != [] {
      var before, a := actions[..|actions| - 1], actions[|actions| - 1];
      LoadersComeOnce(c, before, run);
      LoadersStep(c, Run(c, before), a);
    }
  }

  /** The loader of this run has finished. */
  ghost predicate LoaderFinished(c: Config, actions: seq<Action>, run: nat) {
    actions != []
    && var before, a := actions[..|actions| - 1], actions[|actions| - 1];
    || LoaderFinished(c, before, run)
    || (a.FinishLoader? && a.run == run && run in Run(c, before).loaders)
  }

  lemma LoadersStep(c: Config, s: State, a: Action)
    ensures
      var t := Step(c, s, a);
      if a.StartRun? && !s.m.active then
        t.loaders == s.loaders + {s.m.startId + 1} && t.m.startId == s.m.startId + 1
      else
        && t.loaders == (if a.FinishLoader? then s.loaders - {a.run} else s.loaders)
        && t.m.startId == s.m.startId
  {
    if Enabled(s, a) {
      if OfClient(a) || OfTimer(a) {
        LoadersOutside(c, s, a);
      } else {
        LoadersInside(c, s, a);
      }
    }
  }

  lemma LoadersOutside(c: Config, s: State, a: Action)
    requires Enabled(s, a) && (OfClient(a) || OfTimer(a))
    ensures
      var t := Apply(c, s, a);
      if a.StartRun? && !s.m.active then
        t.loaders == s.loaders + {s.m.startId + 1} && t.m.startId == s.m.startId + 1
      else
        && t.loaders == (if a.FinishLoader? then s.loaders - {a.run} else s.loaders)
        && t.m.startId == s.m.startId
  {
  }

  lemma LoadersInside(c: Config, s: State, a: Action)
    requires Enabled(s, a) && !OfClient(a) && !OfTimer(a)
    ensures Apply(c, s, a).loaders == s.loaders && Apply(c, s, a).m.startId == s.m.startId
  {
  }

  /** What installing a snapshot does: it reaches disk exactly when neither cancelled nor overtaken by a save. */
  lemma InstallDecided(c: Config, actions: seq<Action>)
    requires Enabled(Run(c, actions), InstallSnapshot)
    ensures
      var s, t := Run(c, actions), Apply(c, Run(c, actions), InstallSnapshot);
      && t.m == s.m
      && t.history == if !SessionCancelled(s, s.loop.session) && QuietSinceAttempt(s.history)
                      then After(s.history, Installed(s.loop.phase.generation)) else s.history
  {
    PublicationRun(c, actions);
  }

  /** The publications of a history, oldest first. */
  ghost function PublicationLog(h: History): (log: seq<Event>)
    ensures forall i :: 0 <= i < |log| ==> log[i].Published?
  {
    match h
    case Nothing => []
    case After(p, e) => if e.Published? then PublicationLog(p) + [e] else PublicationLog(p)
  }

  lemma {:induction false} LogFollowsAuthority(h: History, initial: nat)
    requires AuthorityForward(h, initial)
    ensures |PublicationLog(h)| == Publications(h)
    ensures forall i :: 0 <= i < Publications(h) ==>
                          && PublicationLog(h)[i].generation == initial + i + 1
                          && (PublicationLog(h)[i].origin.FromDisk? ==> initial == 0 && i == 0)
  {
    if h.After? {
      LogFollowsAuthority(h.past, initial);
    }
  }

  /** Generations are consecutive; at most the first, over an empty cache, is provisional; the rest are runtime. */
  lemma AuthorityNeverGoesBack(c: Config, actions: seq<Action>)
    ensures
      var log := PublicationLog(Run(c, actions).history);
      && Run(c, actions).m.generation == c.generation + |log|
      && forall i :: 0 <= i < |log| ==>
                       && log[i].generation == c.generation + i + 1
                       && (log[i].origin.FromDisk? ==> c.generation == 0 && i == 0)
  {
    PublicationRun(c, actions);
    LogFollowsAuthority(Run(c, actions).history, c.generation);
  }

  lemma InstalledSnapshotsAreLatest(c: Config, actions: seq<Action>)
    ensures InstallsLatest(Run(c, actions).history)
  {
    PublicationRun(c, actions);
  }

  // ---------------------------------------------------------------------------------------------
  // Restarts
  // ---------------------------------------------------------------------------------------------

  lemma RestartDiscipline(c: Config, actions: seq<Action>)
    ensures RestartsBounded(Run(c, actions).history, c.restartLimit)
    ensures BackoffsExact(Run(c, actions).history, c.backoffBase)
    ensures NoAttemptAfterCleanupFailure(Run(c, actions).history)
    ensures OutagesSeparated(Run(c, actions).history)
  {
    RestartRun(c, actions);
  }
}
