/**
 The fields that `Manager` keeps under its mutex, and one function per lock section.

 The supervisor model interleaves these sections; the class in Manager.dfy implements them.
 */
module Sections {
  import opened Prelude

  datatype Authority = NoAuthority | Existing | Provisional | Runtime

  /** `active` says that `cancel` is set; `generation` is the generation of the schema cache. */
  datatype Shared = Shared(
    active: bool,
    startId: nat,
    refreshEpoch: nat,
    releasedEpoch: nat,
    activeEpoch: nat,
    refreshPending: bool,
    refreshDeadline: nat,
    sessionCancel: Option<nat>,
    authority: Authority,
    publishedAuthority: nat,
    generation: nat)

  /** A manager over a cache that holds `generation` graphs; a nonempty cache counts as `Existing`. */
  function Fresh(generation: nat): Shared {
    Shared(false, 0, 0, 0, 0, false, 0, None,
           if generation == 0 then NoAuthority else Existing, 0, generation)
  }

  function Start(m: Shared): Shared {
    if m.active then m
    else m.(active := true, refreshPending := false, releasedEpoch := m.refreshEpoch, startId := m.startId + 1)
  }

  function Save(m: Shared, now: nat, delay: nat): Shared {
    if !m.active then m
    else m.(refreshEpoch := m.refreshEpoch + 1, refreshPending := false, refreshDeadline := now + delay)
  }

  /** Whether the debounce timer armed for `epoch` releases a refresh. */
  predicate Releases(m: Shared, epoch: nat, now: nat) {
    m.active && m.refreshEpoch == epoch && now >= m.refreshDeadline
  }

  function Fire(m: Shared, epoch: nat, now: nat): Shared {
    if Releases(m, epoch, now) then m.(refreshPending := true, releasedEpoch := epoch) else m
  }

  function StopBump(m: Shared): Shared {
    m.(refreshEpoch := m.refreshEpoch + 1)
  }

  /** Whether the background loader of run `run` may publish the graph it read from disk. */
  predicate AdmitsProvisional(m: Shared, run: nat, cancelled: bool) {
    !cancelled && m.active && m.startId == run && m.authority == NoAuthority && m.generation == 0
  }

  function PublishProvisional(m: Shared, run: nat, cancelled: bool): Shared {
    if AdmitsProvisional(m, run, cancelled)
    then m.(generation := m.generation + 1, authority := Provisional)
    else m
  }

  function Begin(m: Shared, session: nat): Shared {
    m.(sessionCancel := Some(session), activeEpoch := m.refreshEpoch)
  }

  predicate AdmitsRuntime(m: Shared, cancelled: bool) {
    && !cancelled
    && !m.refreshPending
    && m.activeEpoch == m.refreshEpoch
    && m.activeEpoch == m.releasedEpoch
  }

  function PublishRuntime(m: Shared, cancelled: bool): Shared {
    if AdmitsRuntime(m, cancelled)
    then m.(generation := m.generation + 1, authority := Runtime, publishedAuthority := m.publishedAuthority + 1)
    else m
  }

  predicate AdmitsInstall(m: Shared, cancelled: bool, authority: nat, epoch: nat) {
    !cancelled && authority == m.publishedAuthority && epoch == m.refreshEpoch
  }

  /** The section after a session has returned: forget its cancel function, take a pending refresh. */
  function Collect(m: Shared): Shared {
    m.(sessionCancel := None, refreshPending := false)
  }

  /** Whether a wake token received while waiting past epoch `after` stands for a released refresh. */
  predicate WakeValid(m: Shared, after: nat, now: nat) {
    && m.refreshEpoch > after
    && m.releasedEpoch == m.refreshEpoch
    && m.refreshPending
    && now >= m.refreshDeadline
  }

  function CheckWake(m: Shared, after: nat, now: nat): Shared {
    if WakeValid(m, after, now) then m.(refreshPending := false) else m
  }

  function Exit(m: Shared): Shared {
    m.(active := false)
  }
}
