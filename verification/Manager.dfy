/** The manager and the schema cache as the objects they are, each lock section a method. */
module ManagerObject {
  import opened Prelude
  import Sections

  /** The graph and its generation are replaced together; readers see one pair or the other. */
  class Cache<Graph(==)> {
    var state: Option<(Graph, nat)>

    ghost predicate Valid()
      reads this
    {
      state.Some? ==> state.value.1 > 0
    }

    function Generation(): nat
      reads this
    {
      match state case None => 0 case Some(pair) => pair.1
    }

    constructor ()
      ensures Valid() && state == None
    {
      state := None;
    }

    method Load() returns (graph: Option<Graph>, generation: nat)
      requires Valid()
      ensures state == if graph.None? then None else Some((graph.value, generation))
      ensures graph.None? <==> generation == 0
    {
      match state
      case None => graph, generation := None, 0;
      case Some(pair) => graph, generation := Some(pair.0), pair.1;
    }

    /** A missing graph replaces nothing; a present one gets the next generation. */
    method Replace(graph: Option<Graph>) returns (generation: nat)
      requires Valid()
      modifies this
      ensures Valid() && generation == Generation()
      ensures graph.None? ==> state == old(state)
      ensures graph.Some? ==> state == Some((graph.value, old(Generation()) + 1))
    {
      generation := match state case None => 0 case Some(pair) => pair.1;
      if graph == None {
        return;
      }
      generation := generation + 1;
      state := Some((graph.value, generation));
    }
  }

  class Manager<Graph(==)> {
    const cache: Cache<Graph>
    const refreshDelay: nat
    var active: bool
    var startId: nat
    var refreshEpoch: nat
    var releasedEpoch: nat
    var activeEpoch: nat
    var refreshPending: bool
    var refreshDeadline: nat
    var sessionCancel: Option<nat>
    var authority: Sections.Authority
    var publishedAuthority: nat

    ghost function View(): Sections.Shared
      reads this, cache
    {
      Sections.Shared(active, startId, refreshEpoch, releasedEpoch, activeEpoch, refreshPending, refreshDeadline,
                      sessionCancel, authority, publishedAuthority, cache.Generation())
    }

    /** No epoch is ahead of the newest save, and there is an authority exactly while there is a graph. */
    ghost predicate Valid()
      reads this, cache
    {
      && cache.Valid()
      && releasedEpoch <= refreshEpoch && activeEpoch <= refreshEpoch
      && (authority.NoAuthority? <==> cache.state.None?)
    }

    /** Nothing of a session that has begun can be published or installed any more. */
    ghost predicate Outdated()
      reads this, cache
    {
      && (forall cancelled :: !Sections.AdmitsRuntime(View(), cancelled))
      && (forall cancelled, published :: !Sections.AdmitsInstall(View(), cancelled, published, activeEpoch))
    }

    constructor (cache: Cache<Graph>, refreshDelay: nat)
      requires cache.Valid()
      ensures Valid() && this.cache == cache && this.refreshDelay == refreshDelay
      ensures View() == Sections.Fresh(cache.Generation())
    {
      this.cache := cache;
      this.refreshDelay := refreshDelay;
      active, startId, refreshEpoch, releasedEpoch, activeEpoch := false, 0, 0, 0, 0;
      refreshPending, refreshDeadline, sessionCancel := false, 0, None;
      authority := if cache.state.Some? then Sections.Existing else Sections.NoAuthority;
      publishedAuthority := 0;
    }

    method Start() returns (run: Option<nat>)
      requires Valid()
      modifies this
      ensures Valid() && View() == Sections.Start(old(View()))
      ensures run == if old(active) then None else Some(startId)
    {
      if active {
        return None;
      }
      active := true;
      refreshPending := false;
      releasedEpoch := refreshEpoch;
      startId := startId + 1;
      return Some(startId);
    }

    /** Returns the epoch for which a debounce timer is armed. */
    method DidSave(now: nat) returns (armed: Option<nat>)
      requires Valid()
      modifies this
      ensures Valid() && View() == Sections.Save(old(View()), now, refreshDelay)
      ensures armed == if old(active) then Some(old(refreshEpoch) + 1) else None
      ensures armed.Some? ==> Outdated()
      ensures armed.None? ==> View() == old(View())
    {
      if !active {
        return None;
      }
      refreshEpoch := refreshEpoch + 1;
      refreshPending := false;
      refreshDeadline := now + refreshDelay;
      return Some(refreshEpoch);
    }

    /** Returns whether the callback goes on to cancel `cancel` and to send a wake token. */
    method OnTimer(epoch: nat, now: nat) returns (released: bool, cancel: Option<nat>)
      requires Valid()
      modifies this
      ensures Valid() && View() == Sections.Fire(old(View()), epoch, now)
      ensures released == Sections.Releases(old(View()), epoch, now)
      ensures released ==> cancel == sessionCancel
      ensures released ==> forall after: nat, later: nat :: after < epoch && now <= later ==>
                                                              Sections.WakeValid(View(), after, later)
    {
      if !active || refreshEpoch != epoch || now < refreshDeadline {
        return false, None;
      }
      refreshPending := true;
      releasedEpoch := epoch;
      return true, sessionCancel;
    }

    method Stop()
      requires Valid()
      modifies this
      ensures Valid() && View() == Sections.StopBump(old(View())) && Outdated()
    {
      refreshEpoch := refreshEpoch + 1;
    }

    method PublishProvisional(run: nat, cancelled: bool, graph: Graph) returns (published: Option<nat>)
      requires Valid()
      modifies this, cache
      ensures Valid() && View() == Sections.PublishProvisional(old(View()), run, cancelled)
      ensures published.Some? <==> Sections.AdmitsProvisional(old(View()), run, cancelled)
      ensures cache.state == if published.Some? then Some((graph, published.value)) else old(cache.state)
    {
      var current, _ := cache.Load();
      if cancelled || !active || startId != run || authority != Sections.NoAuthority || current.Some? {
        return None;
      }
      var generation := cache.Replace(Some(graph));
      authority := Sections.Provisional;
      return Some(generation);
    }

    method BeginAttempt(session: nat) returns (epoch: nat)
      requires Valid()
      modifies this
      ensures Valid() && View() == Sections.Begin(old(View()), session)
      ensures epoch == refreshEpoch
      ensures Sections.AdmitsRuntime(View(), false) <==> !refreshPending && releasedEpoch == epoch
    {
      sessionCancel := Some(session);
      epoch := refreshEpoch;
      activeEpoch := epoch;
    }

    method PublishGraph(cancelled: bool, graph: Graph) returns (published: Option<nat>)
      requires Valid()
      modifies this, cache
      ensures Valid() && View() == Sections.PublishRuntime(old(View()), cancelled)
      ensures published.Some? <==> Sections.AdmitsRuntime(old(View()), cancelled)
      ensures published.Some? ==> Sections.AdmitsInstall(View(), cancelled, publishedAuthority, activeEpoch)
      ensures cache.state == if published.Some? then Some((graph, published.value)) else old(cache.state)
    {
      if cancelled || refreshPending || activeEpoch != refreshEpoch || activeEpoch != releasedEpoch {
        return None;
      }
      var generation := cache.Replace(Some(graph));
      authority := Sections.Runtime;
      publishedAuthority := publishedAuthority + 1;
      return Some(generation);
    }

    method CollectSession() returns (refresh: bool, current: nat)
      requires Valid()
      modifies this
      ensures Valid() && View() == Sections.Collect(old(View()))
      ensures refresh == old(refreshPending) && current == old(refreshEpoch)
    {
      sessionCancel := None;
      refresh := refreshPending;
      current := refreshEpoch;
      if refresh {
        refreshPending := false;
      }
    }

    method CheckWake(after: nat, now: nat) returns (valid: bool)
      requires Valid()
      modifies this
      ensures Valid() && View() == Sections.CheckWake(old(View()), after, now)
      ensures valid == Sections.WakeValid(old(View()), after, now)
    {
      valid := refreshEpoch > after && releasedEpoch == refreshEpoch && refreshPending && now >= refreshDeadline;
      if valid {
        refreshPending := false;
      }
    }

    method Exit()
      requires Valid()
      modifies this
      ensures Valid() && View() == Sections.Exit(old(View()))
    {
      active := false;
    }
  }
}
