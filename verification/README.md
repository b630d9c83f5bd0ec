# Verified model of Pogo's core

Pogo is a language server for the Django ORM. A Go server keeps a graph of a project's models,
refreshed by supervised Python workers, and answers completion, hover and validation of ORM paths
in open documents. This project models four of its parts in Dafny and proves what they promise.

**The schema refresh protocol** (`Sections`, `Supervisor`, `SupervisorLaws`, `SupervisorWake`,
`SupervisorSleep`, `SupervisorLife`, `SupervisorVerdicts`, `SupervisorProgress`,
`SupervisorTheorems`, `ManagerObject`, `Diagnostics`). Editor saves, debounce timers, their
callbacks, a background loader, worker sessions and the supervisor loop interleave over epochs, a
one-slot wake channel, an authority and a cache generation. `Sections` has one function for each
stretch of code under the manager's mutex. `Supervisor` is the state machine over these sections,
the channel operations and the local steps of the loop; time and failures are part of the schedule,
and the history of observable events is part of the state. `ManagerObject` has the manager and the
cache as objects whose methods implement the sections. `Diagnostics` is a second state machine for
serialised editor handlers, concurrent revalidations, the diagnostics mutex and graph replacements.

**The path resolver over the indexed graph** (`Ordering`, `Schema`, `SchemaIndex`, `IndexTheorems`,
`SchemaGraph`, `GraphTheorems`, `LookupPaths`, `PathResolver`, `PathTheorems`, `PathExample`,
`LookupTheorems`, `ValidationTheorems`). Indexes are built from unordered maps; lookups are
enumerated by a bounded breadth-first walk on the Python side; completion, hover and validation are
three walks on the Go side that must agree.

**The text layer** (`Positions`, `Documents`, `CodeMask`, `CodeMaskTheorems`). UTF-8 offsets and
UTF-16 positions, atomic batches of edits, and the mask that tells Python code from comments and
strings.

**The codecs** (`EnvironmentFile`, `EnvironmentParser`, `EnvironmentTheorems`, `Framing`,
`CacheIdentity`, `SourceIdentity`, `FormatTheorems`). The worker's environment file, newline
framing on both sides of the worker socket, and the byte streams whose digests identify a cached
schema.

Loops and objects of the source are methods and classes; each is proved equal to a function or a
relation, and the properties are lemmas about these. Verify with `dafny verify dfyconfig.toml`.

## What the proofs found

- A wake-up can be lost. A wake token counts only if the newest epoch is greater than the one waited
  past (internal/python/manager.go:539 and 562). `OversleepsExactly` shows that this guard is the
  whole condition: a blocked supervisor can sleep through a release if and only if it waits past the
  newest epoch while that epoch is still to be released, or released and not taken.
- That happens because `loop` checks the epochs in one lock section (lines 416-420) and takes the
  attempt's epoch in another (428-432). A save between the two lets the attempt begin with an
  unreleased epoch; if it fails, the supervisor waits past this very epoch (`GapMayOversleep`). It
  cannot happen in a run whose latest attempt began when the timer of its epoch had run.
- An attempt with the newest epoch unreleased can also end the supervisor silently: the publication
  is refused, the session ends without an error, and line 483 returns. `GivesUpExactly` shows that,
  without further saves, a session gives up without a cleanup failure in no other case, and
  `SupervisorPersists` that with any saves none does whose attempt began settled.
- Completion and acceptance agree except for one name: a lookup literally called "*" is offered, but
  consumed as the "*" key when an earlier lookup path continues with it (`OfferedAsAccepted`, an
  equivalence). The server accepts snapshots in which this occurs (`PathExample`); the worker sorts
  the paths it sends, and on sorted paths there is no exception (`SortedCompletionIsAcceptance`).
- The bound on the enumeration of lookups counts every visited chain twice
  (src/daemon/introspect.py:395): a chain is queued only while those queued and those visited are
  together fewer than 512. So at most 511 paths come out, and a field can be truncated with far
  fewer, the more of its chains have been visited; the limit in line 371 and the check in line 413
  never act.
- The lists of the models of a module (internal/schema/graph.go:203) are the only modelled table
  that depends on the order in which maps are visited; nothing but their length is served.
- The two frame readers differ in one error: for an unended last line of one byte more than the
  bound, Python reports an oversized frame and Go a truncated one.
- Two checks of the supervisor never decide. A snapshot whose session is still of the newest epoch is
  of the latest publication as well, so comparing authorities before installing it
  (internal/python/manager.go:765) adds nothing (`InstallDecided`); and after a stable load there is
  no outage notice to forget (line 495), since announcing the load has already forgotten it.
- A field with fewer than 256 constructible chains is never truncated (`FewAreAllListed`).
- On malformed text `ByteOffset` can return an offset that `PositionAt` rejects; on well-formed text
  it cannot.

## Model

| member | source | states |
|---|---|---|
| `ManagerObject.Cache.Replace` | internal/schema/cache.go:26-40 | graph and generation change together, the generation by exactly one; replacing by nothing leaves the pair as it was |
| `ManagerObject.Manager.DidSave` | internal/python/manager.go:291-328 | after an accepted save nothing of a session that has begun can be published or installed any more; a save that no run is there for changes nothing |
| `ManagerObject.Manager.OnTimer` | internal/python/manager.go:308-318 | a released epoch satisfies every wait past an older one from then on |
| `ManagerObject.Manager.Stop` | internal/python/manager.go:380-386 | after a stop nothing of a session that has begun can be published or installed any more |
| `ManagerObject.Manager.BeginAttempt` | internal/python/manager.go:428-432 | the attempt may publish if and only if its epoch is released and no release is waiting |
| `ManagerObject.Manager.PublishGraph` | internal/python/manager.go:732-742 | cache, authority and publication count change together or not at all, and what is published may be installed |
| `ManagerObject.Manager.PublishProvisional` | internal/python/manager.go:276-284 | a graph from disk is published only into an empty cache of the same run |
| `ManagerObject.Manager.CheckWake` | internal/python/manager.go:538-543 | a wake token counts only for a released, due and unconsumed epoch |
| `SupervisorTheorems.FreshPublications` | internal/python/manager.go:732-742 | in every interleaving a worker graph is published only for the latest released epoch and with no save since its session began |
| `SupervisorTheorems.PublicationDecided` | internal/python/manager.go:732-742 | publication is accepted exactly when the history so demands; a rejected one leaves cache and authority unchanged |
| `SupervisorTheorems.LogFollowsAuthority` | internal/schema/cache.go:26-40 | generations count the publications, and only the very first can come from disk |
| `SupervisorTheorems.AuthorityNeverGoesBack` | internal/python/manager.go:276-284 | over any run at most one provisional graph is published, as generation 1 of an empty cache; all later generations are runtime |
| `SupervisorTheorems.ProvisionalDecided` | internal/python/manager.go:275-284 | what was found on disk is published, as generation 1, exactly when its run is still active and not cancelled and no graph has come before |
| `SupervisorTheorems.LoadersComeOnce` | internal/python/manager.go:255-257 | every run that has started has its loader exactly once |
| `SupervisorTheorems.InstalledSnapshotsAreLatest` | internal/python/manager.go:744-780 | a snapshot is installed on disk only while it is the latest runtime publication, with no save since its session began |
| `SupervisorTheorems.InstallDecided` | internal/python/manager.go:764-771 | a snapshot reaches disk exactly when its session is not cancelled and no save or stop came since its attempt began |
| `SupervisorTheorems.RestartDiscipline` | internal/python/manager.go:413-529 | upper bounds on any run: attempts without a stable load or a released save are at most the limit plus one; each backoff is the exact capped power; no attempt follows a cleanup failure; two outage notices have a load between them |
| `SupervisorLaws.PublicationRun` | internal/python/manager.go:732-780 | the epochs, counters and publication laws are invariants of every interleaving |
| `SupervisorLaws.RestartRun` | internal/python/manager.go:413-529 | the counter of failures and the outage flag mean what the history says, and a supervisor is at the limit only after more failures in a row than it allows, in every interleaving |
| `SupervisorVerdicts.SessionsAreJudged` | internal/python/manager.go:457-528 | what the supervisor does with a finished session, from the history alone: in particular a failure is answered by a restart after the delay for the streak of failures as long as that is within the limit, and only then by waiting for a save |
| `SupervisorVerdicts.LimitMeansStreak` | internal/python/manager.go:509-511 | whoever waits at the limit has seen more failures in a row than the limit |
| `SupervisorVerdicts.LimitIsUsed` | internal/python/manager.go:509-528 | the bound on attempts is reached: in every configuration some run makes the limit plus one without a load or a refresh |
| `SupervisorVerdicts.CollectionDecided` | internal/python/manager.go:448-461 | a session counts as superseded exactly when there has been a save or a stop since its attempt began, and a refresh is taken exactly when a release is waiting |
| `SupervisorVerdicts.TokensAreJudged` | internal/python/manager.go:538-547 | a token ends a wait exactly when the newest save is past the epoch waited for, released, not taken and due; otherwise nothing changes |
| `SupervisorVerdicts.ReleasesAreDebounced` | internal/python/manager.go:307-318 | a timer releases its epoch exactly when a run is active and no save or stop came after the one that armed it, which is then at least the refresh delay ago |
| `SupervisorVerdicts.DeadlineFollowsSave` | internal/python/manager.go:304-306 | the deadline is always the refresh delay after the latest save |
| `SupervisorProgress.CancelledRunEnds` | internal/python/manager.go:457-460 | wherever a cancelled run is and whatever else goes on, at most seven steps of its own end it, and it is inactive then |
| `SupervisorProgress.StopEndsRun` | internal/python/manager.go:370-398 | so a stop can always be followed by the end of the run |
| `SupervisorProgress.StartDecided` | internal/python/manager.go:234-253 | while a run is active a start does nothing; otherwise a run begins afresh with every save released, and the graph that is served stays |
| `SupervisorProgress.AttemptDecided` | internal/python/manager.go:416-432 | the supervisor waits before an attempt exactly while a save is not released; otherwise the attempt takes the number of saves and stops as its epoch |
| `SupervisorProgress.ReleaseIsCarriedOut` | internal/python/manager.go:307-327 | a release cancels the session that is running and no other, and then puts a token into the slot of its own run |
| `SupervisorProgress.TokensAreConserved` | internal/python/manager.go:320-326 | no supervisor is woken more often than tokens were sent |
| `SupervisorProgress.WantedGraphIsInstalled` | internal/python/manager.go:700-780 | in every state that a run comes to, a graph that the history asks for can be published, announced and installed, one after the other |
| `SupervisorWake.WakeRun` | internal/python/manager.go:291-328 | unless the run was stopped, a waiting release is the newest and due, and is announced by a token or a callback to a supervisor that waits past an older epoch; in every interleaving |
| `SupervisorSleep.OversleepsExactly` | internal/python/manager.go:532-572 | a blocked supervisor that is not stopped can come to oversleep, by time, timers and tokens alone, if and only if it waits past the newest epoch whose timer is to run or whose release is not taken |
| `SupervisorSleep.VainWaitOversleeps` | internal/python/manager.go:307-326 | from every such wait the schedule is given: the timer runs, all callbacks send, the token is wasted |
| `SupervisorSleep.NoLostWakeup` | internal/python/manager.go:538-543 | no wake-up is lost in a wait past an epoch older than the newest, whatever the attempts before it |
| `SupervisorSleep.NoLostWakeupOfSettled` | internal/python/manager.go:532-572 | nor in any wait of a run whose latest attempt began when the timer of its epoch had run |
| `SupervisorLife.NoLostWakeupOfReleased` | internal/python/manager.go:400-530 | nor when the latest attempt began with a released epoch, in a run that found no timer armed for the newest epoch |
| `SupervisorLife.SupervisorPersists` | internal/python/manager.go:469-492 | unless stopped or cancelled, a supervisor gives up only after a cleanup failure, if the latest attempt of its run began settled |
| `SupervisorLife.GivesUpExactly` | internal/python/manager.go:482-484 | a session can come to end its supervisor without a cleanup failure and without further saves if and only if its epoch is the newest and its publication will be refused for not being released, or was refused with no release since |
| `SupervisorLife.UnreleasedGivesUp` | internal/python/manager.go:735-737 | from every such session that is still loading: the publication is refused, the session ends without error, and the loop returns |
| `SupervisorLife.GapIsReachable` | internal/python/manager.go:416-428 | every configuration comes to the gap between the two lock sections of an attempt |
| `SupervisorLife.GapMayOversleep` | internal/python/manager.go:416-432 | from every gap of every run, a save can make the supervisor lose a wake-up |
| `SupervisorLife.GapMayEndSupervisor` | internal/python/manager.go:416-432 | from every gap of every run, a save can make the supervisor end silently |
| `Diagnostics.DiagnosticsSettle` | internal/lsp/diagnostics.go:54-108 | in every interleaving, once no handler and no revalidation is in flight, the last message of a document that the editor has open reports the text the editor sent last, under the generation of the latest replacement; that of any other document is empty |
| `Diagnostics.InvRun` | internal/lsp/diagnostics.go:54-108 | at every moment someone is still going to publish the message that is right for what the server holds, or it is the last one sent and no wrong one is about to follow |
| `Diagnostics.StoreFollowsEditor` | internal/lsp/features.go:68-128 | the server holds what the accepted notifications leave open, under the generation that the replacements make |
| `Diagnostics.EditsAreTaken` | internal/lsp/features.go:68-128 | between two notifications an edit is taken exactly when its document is open and, for a change, older |
| `Diagnostics.MessagesAreComputed` | internal/lsp/diagnostics.go:63-100 | whatever is sent was computed from a text that was open under its name and from the graph of the generation that it names |
| `Diagnostics.ComesToRest` | internal/lsp/diagnostics.go:54-108 | once the editor and the graph keep still, everything in flight can end: nothing blocks |
| `Diagnostics.RestIsNear` | internal/lsp/diagnostics.go:54-108 | and it ends in any order, within a number of steps that the state determines |
| `Diagnostics.ReplaceStep` | internal/lsp/lifecycle.go:240-248 | the revalidation that follows a replacement covers every open document |
| `Schema.TableHoldsWinners` | internal/schema/graph.go:734-752 | a table by name holds, for each usable name offered, the first of its lowest-kind accesses |
| `Schema.RelationTableHoldsWinners` | internal/schema/graph.go:704-719 | relations are refused exactly when two fields want one name, and otherwise follow the same rule |
| `SchemaIndex.ReplaceAccess` | internal/schema/graph.go:754-762 | the list goes on mirroring the table, each name once |
| `SchemaIndex.AddTo` | internal/schema/graph.go:734-752 | one offer updates list and table alike |
| `SchemaIndex.OfferRelation` | internal/schema/graph.go:704-719 | the verdict and the new table of one relation offer |
| `SchemaIndex.RegisterNames` | internal/schema/graph.go:521-550 | registration fails exactly when two fields claim one query name, attname or accessor; otherwise each name leads to the field that claims it |
| `SchemaIndex.SortedFieldNames` | internal/schema/graph.go:677-684 | map iteration in any order gives the one ascending list |
| `SchemaIndex.OrderTable` | internal/schema/graph.go:656-664 | any order of visiting the entries gives the list sorted by kind and name |
| `SchemaIndex.BuildModelIndex` | internal/schema/graph.go:505-675 | the index exists exactly when no name is contested, and has all its name-keyed tables: fields, query names, attnames, accessors, accesses and relations |
| `SchemaIndex.IndexUnique` | internal/schema/graph.go:505-675 | that index is unique |
| `IndexTheorems.IndexAnswers` | internal/schema/graph.go:597-664 | what each of the five tables answers for a name: the field that prevails among those that go by it in that use, and nothing for an unusable name or one that none goes by |
| `IndexTheorems.PlainTables` | internal/schema/graph.go:521-550 | the three plain tables lead from a name to the one field known by it |
| `IndexTheorems.ListsAreOrdered` | internal/schema/graph.go:654-664 | each list holds the entries of its table, declared names first and reverse ones last, each sort by name |
| `IndexTheorems.IndexableMeansUncontested` | internal/schema/graph.go:505-675 | a model can be indexed exactly when no two of its fields contest a name |
| `SchemaIndex.ListRefinesOffers` | internal/schema/graph.go:654-664 | visiting and looking up by name agree: same entries, each name once, the winner of each name |
| `SchemaIndex.SelectRelatedIsSingleValued` | internal/schema/graph.go:610-640 | every select_related entry is single-valued with a known model |
| `SchemaIndex.SelectRelatedFollowsQueries` | internal/schema/graph.go:610-640 | a name for select_related is a relation that queries can follow, to the same field |
| `SchemaIndex.QueryRelationsAreQueryNames` | internal/schema/graph.go:608-651 | a relation that queries can follow is a name that queries can use |
| `SchemaIndex.PrefetchNamesAreAttributes` | internal/schema/graph.go:608-651 | a name for prefetch_related is an attribute of instances |
| `SchemaGraph.RecordKeys` | internal/schema/graph.go:192-202 | a key taken by another model is found, wherever it was recorded |
| `SchemaGraph.AddModel` | internal/schema/graph.go:167-204 | a model is added exactly when it is valid, indexable and collides with none before it |
| `SchemaGraph.AddApp` | internal/schema/graph.go:163-205 | the same for all models of an app, visited in any order |
| `SchemaGraph.CheckReferences` | internal/schema/graph.go:212-234 | source models, related models and concrete parents all belong to the graph |
| `SchemaGraph.Build` | internal/schema/graph.go:135-236 | the verdict and all tables, those by module included, are those that the snapshot determines, whatever the visiting order |
| `SchemaGraph.BuildIsDeterministic` | internal/schema/graph.go:163-205 | there is only one such graph, up to the order of the models listed for a module, of which only the number is served |
| `SchemaGraph.ExportPathResolves` | internal/schema/graph.go:184-191 | a path that is no class path resolves if and only if exactly one model claims it as its export |
| `SchemaGraph.ClassPathResolves` | internal/schema/graph.go:794-806 | a class path resolves to its model before any export |
| `SchemaGraph.LabelLeadsToItsModel` | internal/schema/graph.go:182 | each label leads to the index of its one model |
| `SchemaGraph.RelationsPointIntoGraph` | internal/schema/graph.go:219-225 | in an accepted graph every relation with a related label points at a model of the graph |
| `GraphTheorems.AcceptsExactly` | internal/schema/graph.go:135-236 | the exact form of the snapshots that are accepted: header, sources, names of apps and models, no shared label, class path or source, references within |
| `GraphTheorems.PathLeadsExactly` | internal/schema/graph.go:794-806 | a dotted path leads to the model whose class it is, and if it is no class, to the model that alone is exported under it; otherwise nowhere |
| `LookupPaths.Expand` | src/daemon/introspect.py:386-411 | the longest run of the extensions that fits the bound is queued; one is dropped only when visited, queued and listed together reach 512 |
| `LookupPaths.BuildLookupPaths` | src/daemon/introspect.py:358-416 | the bounded breadth-first walk returns, sorted, the one enumeration that the rows of LookupTheorems below describe |
| `LookupPaths.DroppedWithoutRoom` | src/daemon/introspect.py:395-409 | extensions are dropped exactly when there is no room for all |
| `LookupTheorems.FewAreAllListed` | src/daemon/introspect.py:358-416 | a field with fewer than 256 constructible chains is enumerated whole and not truncated |
| `LookupTheorems.EnumerationIsUnique` | src/daemon/introspect.py:358-416 | the result is determined, also where it is cut short |
| `LookupTheorems.ConstructibleIsListed` | src/daemon/introspect.py:386-416 | an enumeration that is not truncated lists every constructible chain of at most two transforms |
| `LookupPaths.CompleteStep` | src/daemon/introspect.py:371-411 | a chain dropped once stays missing, and nothing else goes missing |
| `LookupTheorems.ListedPathsAreDistinct` | src/daemon/introspect.py:374-385 | chains are distinct and fewer than 512 |
| `LookupTheorems.ListedPathIsTrue` | src/daemon/introspect.py:378-385 | each path is that of a constructible chain of at most two transforms, with its lookups |
| `LookupTheorems.ListedChainsAreClosed` | src/daemon/introspect.py:386-411 | with each chain, the chain before its last transform is listed |
| `LookupTheorems.TruncatedMeansMissing` | src/daemon/introspect.py:395-414 | truncated if and only if a constructible chain of at most two transforms is missing |
| `LookupTheorems.AcceptsExactlyTheListed` | internal/analysis/path.go:1255-1301 | after a wildcard-free field that is not a relation, lookup mode accepts exactly the listed chains and those plus one terminal lookup |
| `LookupTheorems.AcceptsExactlyTheConstructible` | internal/analysis/path.go:1255-1301 | for an untruncated enumeration these are exactly the constructible chains and their lookups: what Python enumerates is what Go accepts |
| `PathResolver.ConsumeFieldSuffix` | internal/analysis/path.go:1255-1301 | the scan decides as the first path that knows the name, and by "*" only if none does |
| `PathResolver.FieldSuffixCandidates` | internal/analysis/path.go:1219-1253 | the first offer of each name along the lookup paths |
| `PathResolver.CandidatesForState` | internal/analysis/path.go:1168-1217 | the first offer of each nonempty name, fields before suffixes |
| `PathResolver.CompletePath` | internal/analysis/path.go:959-986 | exactly the candidates that continue the active text, by rank and then name |
| `PathResolver.ResolvePathSegment` | internal/analysis/path.go:988-1002 | the meaning of the target segment, if all segments up to it are consumed |
| `PathResolver.ValidatePath` | internal/analysis/path.go:1004-1096 | the issue of the first refused segment, unless the lookups of its field cannot tell; which issues there are is said by the rows of ValidationTheorems |
| `PathTheorems.OfferedAsAccepted` | internal/analysis/path.go:1119-1301 | from every reachable state a name is offered with the kind and field with which it is accepted other than through "*", if and only if it is not a shadowed lookup |
| `PathTheorems.CompletionIsAcceptance` | internal/analysis/path.go:959-986 | for every built graph, mode and consumable prefix, completion offers a name if and only if the path ended by it is consumed other than through "*", except for a shadowed lookup |
| `PathExample.ShadowedExample` | internal/analysis/path.go:1263-1290 | a graph that can be built, with unsorted lookup paths, on which "*" is offered and the path that ends with it is not consumed but through the key |
| `LookupTheorems.SortedIsNotShadowed` | internal/analysis/path.go:1263-1290 | where lookup paths are sorted no lookup is shadowed |
| `LookupTheorems.SortedCompletionIsAcceptance` | internal/analysis/path.go:959-986 | on every built graph with sorted lookup paths completion and acceptance agree without exception |
| `LookupTheorems.EnumeratedFieldsAreSorted` | src/daemon/introspect.py:415-416 | the worker sorts the lookup paths it sends, so this is so on every graph it can send |
| `PathTheorems.TransformsAreListed` | internal/analysis/path.go:1119-1157 | transforms consumed on the way to any segment begin a listed lookup path of at most two |
| `PathTheorems.LookupsComeLast` | internal/analysis/path.go:1281-1288 | lookups are accepted only as the last segment in lookup mode, only where listed, and on relations only the seven that relations allow |
| `PathTheorems.ListedLookupIsAccepted` | internal/analysis/path.go:1255-1301 | and there they are accepted, unless the model has a field by the name |
| `PathTheorems.IssueNamesFirstRefused` | internal/analysis/path.go:1012-1095 | a reported issue names the first segment that cannot be consumed; hovering succeeds exactly before it |
| `PathTheorems.IssuesAreCertain` | internal/analysis/path.go:1042-1117 | an issue is certain: the model has no such name, and a complete list of lookup paths does not know it |
| `PathTheorems.FieldsLeadOn` | internal/analysis/path.go:1119-1166 | after a segment that names a field the walk stands on its related model if it has one, and otherwise on the field |
| `PathTheorems.WalkStaysInGraph` | internal/analysis/path.go:1119-1166 | in a built graph a walk stands only on models of the graph |
| `ValidationTheorems.SilenceExplained` | internal/analysis/path.go:1004-1096 | no issue of a path that is looked at if and only if it can be hovered to its end, or its first refused segment comes where the paths are cut short, or is an unsupported lookup at the end, or has as many transforms before it as some path with a key |
| `ValidationTheorems.RefusedIsReported` | internal/analysis/path.go:1012-1117 | the issue of the first refused segment: its segment, model and field, the code of the mode exactly for a name of the wrong kind, and silence exactly where the lookups cannot tell |
| `ValidationTheorems.NotLookedAt` | internal/analysis/path.go:1004-1011 | an empty path, one of more than 64 segments, one on no model, and a lookup or projection that begins with an annotation are never reported |
| `ValidationTheorems.WrongSuffixIsReported` | internal/analysis/path.go:1042-1117 | after a plain field whose paths are all there and have no "*", a name that no listed path goes on with and that is no lookup at the end is always reported at its segment |
| `ValidationTheorems.SilentExactlyOnTheConstructible` | internal/analysis/path.go:1004-1117 | for an untruncated enumeration without "*" validation is silent exactly on the constructible chains, these with a lookup of the expression reached, and these with an unsupported lookup; all else is an invalid lookup of the field |
| `ValidationTheorems.PlainFieldBefore` | internal/analysis/path.go:1119-1166 | which segment before decides where the walk stands when suffixes may follow |
| `ValidationTheorems.RelationsAreFollowed` | internal/analysis/path.go:1123-1140 | in the relation modes a segment is consumed exactly if it names a relation of the model and, unless last, one to a known model, where the walk goes on |
| `ValidationTheorems.CompletionIsOrdered` | internal/analysis/path.go:976-985 | candidates come with fields before transforms before lookups, some relations first when prefetching, and by name within a rank, each name once |
| `PathTheorems.ValidationPrefixClosed` | internal/analysis/path.go:1004-1096 | a path of at most 64 segments without an issue has no prefix with one |
| `PathTheorems.ConsumedBeforeIsConsumedLast` | internal/analysis/path.go:1119-1157 | what can be followed by more segments can also come last |
| `PathTheorems.BuiltIsWellIndexed` | internal/schema/graph.go:505-675 | every built graph has the agreement of lists and tables that completion rests on |
| `Positions.DecodeEncoded` | internal/analysis/document.go:611-666 | UTF-8 decoding inverts encoding: section 4 of RFC 3629 |
| `Positions.DecodedIsEncoded` | internal/analysis/document.go:611-666 | only encoded scalars decode; surrogates, overlong and truncated forms do not |
| `Positions.WidthBySize` | internal/analysis/document.go:621-628 | a rune takes two UTF-16 units exactly when it has four bytes |
| `Positions.SplitsAtRuneStart` | internal/analysis/document.go:641-644 | a rune start splits well-formed text into well-formed parts |
| `Positions.LineBounds` | internal/analysis/document.go:668-689 | the bounds of the line without its LF or CR LF, or none beyond the last line |
| `Positions.PositionAt` | internal/analysis/document.go:641-666 | the line feeds before the offset and the units since; none off a rune start or on malformed text |
| `Positions.ByteOffset` | internal/analysis/document.go:611-639 | exactly the offset that the position denotes, and none if there is none |
| `Positions.PlacesDiffer` | internal/analysis/document.go:611-666 | different offsets have different places |
| `Positions.PositionsInRange` | internal/analysis/document.go:641-666 | line and character never exceed the length, so 32-bit counters do not wrap within a document |
| `Positions.OffsetRoundTrip` | internal/analysis/document.go:611-666 | an offset that has a position is found again from it, except inside a CR LF pair, where it is rejected |
| `Positions.WellFormedRoundTrip` | internal/analysis/document.go:611-666 | on well-formed text a position that has an offset is reported for that offset |
| `Positions.PositionRoundTrip` | internal/analysis/document.go:641-644 | on any bytes this holds if and only if the offset is at a rune start |
| `Positions.StrayTail` | internal/analysis/document.go:611-644 | bytes on which it fails |
| `Positions.BoundariesHavePositions` | internal/analysis/document.go:641-666 | on well-formed text every rune boundary has a position |
| `Documents.ReplacementEndsThere` | internal/analysis/document.go:691-708 | the end computed from the replacement alone is the point of that offset in the updated text |
| `Documents.EditTells` | internal/analysis/document.go:189-206 | each reported edit tells truly how one text became the other, in bytes and points |
| `Documents.ApplyChange` | internal/analysis/document.go:171-206 | one change, or why it is refused; if it has a range, its text is in the place of the bytes that the range spans and all else is as before |
| `Documents.ChangeTakesEffect` | internal/analysis/document.go:177-206 | a change whose range spans two offsets puts its text in the place of the bytes between them; it is refused only if its text is malformed or the document would exceed 4 MiB |
| `Documents.ChangeHasNoPlace` | internal/analysis/document.go:178-188 | a change whose range spans nothing is refused as misplaced |
| `Documents.TypedTextIsThere` | internal/analysis/document.go:178-202 | text typed at a position is found there, and what was there comes after it |
| `Documents.ApplyChanges` | internal/analysis/document.go:164-207 | the left-to-right application of all changes, each replacing what its range spans in the text before it, or the first error; the reported edits lead from the old text to the new and hold the texts that were put in |
| `Documents.BatchesCompose` | internal/analysis/document.go:170-207 | a batch is its first part followed by its second |
| `Documents.WholeTextForgets` | internal/analysis/document.go:171-176 | a change of the whole text makes the changes before it irrelevant, if they could be applied |
| `Documents.Store.Open` | internal/analysis/document.go:126-146 | a valid document replaces whatever was open under its URI |
| `Documents.Store.Change` | internal/analysis/document.go:148-251 | atomic: documents stay as they were, or the text is what all changes make of it, one replacement after the other, at a strictly larger version, with a tree that follows |
| `Documents.Store.Save` | internal/analysis/document.go:307-323 | a save without text changes nothing |
| `Documents.Store.SaveText` | internal/analysis/document.go:325-351 | a saved text replaces the source at an unchanged version, unless the document changed meanwhile |
| `Documents.Store.Close` | internal/analysis/document.go:253-261 | the document is forgotten |
| `CodeMask.PythonCodeMask` | internal/analysis/infer.go:284-337 | the scan with two bytes of lookahead marks exactly the bytes that a lexer without lookahead reads as code |
| `CodeMask.MaskIsPrefixStable` | internal/analysis/infer.go:284-337 | the mask of a prefix is a prefix of the mask |
| `CodeMaskTheorems.CodeIsOutsideTokens` | internal/analysis/infer.go:284-337 | every text is made of comments, strings, triple-quoted strings and single bytes, the last possibly cut short, and exactly the single bytes are code |
| `CodeMaskTheorems.TokensAreMasked` | internal/analysis/infer.go:284-337 | and a text written as such tokens is read as these |
| `CodeMask.OpenParentheses` | internal/analysis/path.go:378-392 | the stack holds exactly the code parentheses left unclosed at the offset, innermost last |
| `CodeMask.CalleeName` | internal/analysis/path.go:431-438 | the longest run of identifier bytes that are code, whichever mask is used |
| `CodeMask.CallAfterOpening` | internal/analysis/path.go:429-447 | the method call of a parenthesis, if and only if there is one |
| `CodeMask.EnclosingCall` | internal/analysis/path.go:374-397 | the call of the innermost unclosed parenthesis |
| `CodeMask.EnclosingCallBefore` | internal/analysis/path.go:399-427 | the innermost method call among the unclosed parentheses before a limit |
| `CodeMask.EnclosingFunctionCall` | internal/analysis/path.go:449-484 | the function call of the innermost unclosed parenthesis |
| `CodeMask.MethodOrFunction` | internal/analysis/path.go:429-484 | no parenthesis is both a method call's and a function call's |
| `CodeMaskTheorems.WrittenMethodCall` | internal/analysis/path.go:429-447 | a dot, a name and a parenthesis, with blanks before it, are the method call of that name unless the dot has no receiver |
| `CodeMaskTheorems.WrittenFunctionCall` | internal/analysis/path.go:449-484 | a name and a parenthesis that no dot precedes are the function call of that name |
| `CodeMaskTheorems.NothingIsCalled` | internal/analysis/path.go:429-484 | a parenthesis after something else, or after a comment or a string, calls nothing |
| `EnvironmentTheorems.QuotedEscaped` | internal/python/environment.go:248-296 | an escaped value between double quotes is read back |
| `EnvironmentTheorems.ReadWritten` | internal/python/environment.go:130-216 | reading inverts writing: all distinct valid entries within the bounds are returned in order |
| `EnvironmentTheorems.AcceptedIsWritable` | internal/python/environment.go:151-216 | accepted names are valid, unreserved and unique, the bounds hold, and writing them back reads the same |
| `EnvironmentTheorems.ReadIsValid` | internal/python/environment.go:196-211 | validity of the entries is kept entry by entry |
| `EnvironmentTheorems.PlainIsRead` | internal/python/environment.go:226-246 | a value that needs no quotes is read as it stands, with or without spaces and a comment after it, whether the line ends with LF, CR LF or the file |
| `EnvironmentTheorems.SingleQuotedIsRead` | internal/python/environment.go:248-296 | between single quotes everything but the quote and a carriage return stands for itself |
| `EnvironmentTheorems.ExportIsIgnored` | internal/python/environment.go:171-174 | an exported assignment means what the assignment means |
| `EnvironmentTheorems.ReservedMeans` | internal/python/environment.go:375-387 | the names that are reserved, whatever their case |
| `EnvironmentTheorems.LineIsJudged` | internal/python/environment.go:192-210 | a written line is refused exactly if the entries with it are not valid, and for the first of the reasons in their order |
| `EnvironmentTheorems.SilentLine` | internal/python/environment.go:154-169 | a line that is blank or holds a comment only is skipped, whichever way it ends |
| `EnvironmentTheorems.PlainLineIsRead` | internal/python/environment.go:154-211 | a plain assignment with spaces wherever they may stand, and a comment or not, gives its entry |
| `EnvironmentTheorems.QuotedLineIsRead` | internal/python/environment.go:248-297 | a quoted value is read back with spaces and a comment after it, whichever way the line ends |
| `EnvironmentTheorems.EmptyIsRead` | internal/python/environment.go:218-246 | nothing after the equals sign is the empty value, and so is a comment, but only after a space |
| `EnvironmentTheorems.UnclosedIsRefused` | internal/python/environment.go:248-296 | a quoted value that is not closed, or holds an escape other than the five, is refused |
| `EnvironmentTheorems.TrailingTextIsRefused` | internal/python/environment.go:253-270 | after the closing quote only spaces and a comment may follow |
| `EnvironmentTheorems.FileIsText` | internal/python/environment.go:130-142 | a file that is not text or holds NUL is refused; a byte order mark makes no difference |
| `EnvironmentParser.WorkerEnvironmentParser.SkipHorizontalSpace` | internal/python/environment.go:307-311 | spaces and tabs, and nothing else, are consumed |
| `EnvironmentParser.WorkerEnvironmentParser.ConsumeLineEnd` | internal/python/environment.go:323-339 | LF or CR LF is consumed and counted; a bare CR is refused where it stands |
| `EnvironmentParser.WorkerEnvironmentParser.ParseQuoted` | internal/python/environment.go:248-296 | a quoted value as the grammar reads it, across lines, with the line of each problem |
| `EnvironmentParser.WorkerEnvironmentParser.ParseUnquoted` | internal/python/environment.go:226-246 | an unquoted value up to the line end or a comment, trimmed |
| `EnvironmentParser.WorkerEnvironmentParser.ParseValue` | internal/python/environment.go:218-297 | any value |
| `EnvironmentParser.WorkerEnvironmentParser.ParseKey` | internal/python/environment.go:175-188 | a name and "=" |
| `EnvironmentParser.WorkerEnvironmentParser.Check` | internal/python/environment.go:196-210 | the first reason to refuse an entry, in the order of the checks |
| `EnvironmentParser.WorkerEnvironmentParser.Parse` | internal/python/environment.go:151-216 | the entries, or the first problem with the number of its line; the line number is one plus the line ends consumed |
| `EnvironmentParser.ParseWorkerEnvironment` | internal/python/environment.go:130-142 | the meaning of a whole payload |
| `Framing.FrameReader.Read` | src/daemon/protocol.py:43-61 | however the stream is split, the next frame of the stream is returned; the buffer never exceeds the bound plus one |
| `Framing.ReadAll` | src/daemon/protocol.py:43-61 | repeated reads return all frames in order and then nothing, or the first error |
| `Framing.FramesExactly` | src/daemon/protocol.py:38-75 | a stream reads as given payloads if and only if it is their framing and each is newline-free and within the bound |
| `Framing.EncodedIsNext` | src/daemon/protocol.py:64-75 | a payload of 1 byte to 32 MiB is encoded, and read back if and only if it holds no newline |
| `Framing.ReadFrame` | internal/python/frame.go:17-40 | the same next frame, with the same size boundary, whatever the buffer size |
| `Framing.ReadersAgree` | internal/python/frame.go:17-40 | both readers accept the same frames and refuse the same streams; the error differs in one case only |
| `Framing.WriteFrame` | internal/python/frame.go:42-62 | a frame is written whole unless the writer fails; a payload out of bounds is not written at all |
| `CacheIdentity.HashWriter.WriteCacheIdentityField` | internal/python/schema_cache.go:169-177 | a field adds its name and value, each after its length |
| `CacheIdentity.FieldsInjective` | internal/python/schema_cache.go:169-177 | equal streams of length-prefixed fields come from equal field sequences |
| `CacheIdentity.DecimalInjective` | internal/python/schema_cache.go:89-91 | decimal numbers determine the number |
| `CacheIdentity.Open` | internal/python/schema_cache.go:70-116 | the identity is the digest of all fields of the configuration, in order |
| `CacheIdentity.ConfigurationInjective` | internal/python/schema_cache.go:80-112 | configurations with equal streams are equal, down to every environment variable and the versions of all formats |
| `CacheIdentity.EffectiveSettingsDecided` | internal/python/schema_cache.go:92-96 | the settings that take effect are those of the first variable that names them, or the configured ones |
| `SourceIdentity.HashFile` | internal/python/schema_cache.go:460-481 | so many bytes of the content, in reads of any size, or failure when the file ends early |
| `SourceIdentity.SchemaSourceIdentity` | internal/python/schema_cache.go:294-343 | an identity exists exactly when every source can be read and all fit the bound, and is the digest of their stream |
| `SourceIdentity.IdentityExists` | internal/python/schema_cache.go:294-343 | there is an identity exactly if every source could be read and together they are at most 32 MiB |
| `SourceIdentity.SourcesInjective` | internal/python/schema_cache.go:294-343 | equal streams imply the same ordered paths, sizes and contents |
| `SourceIdentity.IdentityForgetsOrder` | internal/python/schema_cache.go:294-297 | the order in which the sources are listed does not matter |
| `Ordering.SortForgetsOrder` | internal/python/schema_cache.go:295-296 | sorting depends on the elements alone |

## Left out

- Process start and kill, sockets, authentication, file permissions, renames and syncs in `runSession`, `authenticate` and the cache files: operating-system I/O. A session is a step that may load, be refused, fail, be cancelled or fail to clean up; what a path holds is a parameter.
- `time.Timer.Stop` is not relied on: a stopped timer may still run in the model, which only adds interleavings.
- Overflow of the shift in the backoff (internal/python/manager.go:518) and of 64-bit epochs; delays are exact below the cap.
- The error that `Stop` returns and the waits inside it: only its lock section and its cancellation are steps.
- A missing notifier and a missing cache: both are taken to be there.
- The loops of `loop`, `waitForRefresh`, `waitForBackoff` and of the diagnostics handlers are steps of a state machine, not methods, because other goroutines act between their lock sections.
- Parsing and queries by tree-sitter: a parser is a pair of functions of the text, and of an old tree and edits; a parse without error and without a tree is not modelled. Syntax and call extraction follow from the text alone.
- Regular-expression inference, serializer analysis, and the expression before a dot, which is a parameter of the call scans: case lists.
- JSON decoding and encoding, wire checks, clones and plain accessors of the graph: library code, or immediate.
- Managers, query sets, methods, indexes and constraints of a model: `metadataValid` stands for their checks; they do not enter name resolution.
- Symbolic links, case-insensitive paths and path cleaning: the resolved paths of a model are given with it.
- The index is built in several passes over the sorted fields, one per table, where the source fills all tables in one pass; the tables do not depend on each other.
- Django expressions: a node is what its lookups, transforms and children are, and a transform gives the same child each time it is built.
- SHA-256 is any function of the stream; that different streams have different digests is not claimed.
- The choice of settings files in `settingsSelectionIdentity` (internal/python/schema_cache.go:118-167): its result is a field of the configuration. Its stream has the form of the source stream.
- Splitting a string into path segments, argument counting, rendering, the VS Code and Zed clients, and the lifecycle of the language server beyond the order of handlers.
- ManagerObject.Manager.Stop: cancellation is a separate action of the state machine, `Supervisor.Apply` on `CancelRun`.
- EnvironmentTheorems.ReadWritten: comparison of names is a parameter, so it covers systems with and without case; the system's own rule is not modelled.
- Framing.WriteFrame: the payload is given as bytes; that the encoder never emits a raw newline is the encoder's promise.
- SupervisorSleep.OversleepsExactly: says nothing of a run in which a stop was requested; the next run starts afresh.
- Diagnostics.DiagnosticsSettle: the time between a replacement of the graph and the start of the revalidation that it triggers counts as a revalidation in flight.
- The sections of `Start`, of the end of a session and of the loop's return have methods in `ManagerObject` but no rows: their contracts read the section back.
- Diagnostics.StoreFollowsEditor: an accepted change carries the text that results from it; which edits are refused, and what the others make of a text, is in `Documents`.
- SupervisorProgress.CancelledRunEnds: gives steps that end the run; that the operating system lets them happen is not claimed.
