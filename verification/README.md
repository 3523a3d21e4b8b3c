# Edge controller: a verified model

An edge controller renders a web server configuration from routes and rules, pushes it to nodes,
watches their heartbeats, steers DNS towards the healthy ones, and lets each node enforce rate
limits and signed requests. This project models the parts of it in which state, concurrency or
arithmetic decide, and proves what they promise. `dafny verify dfyconfig.toml` checks all of it.

| files | what they model |
|---|---|
| `Coalescer.dfy`, `Orchestration.dfy` | folding concurrent "push the stored DNS state" calls into one running sync and one waiting sync: a step system with two mutexes, a pending record and ready channels, its invariant, and a class whose methods are its atomic blocks |
| `Model.dfy`, `Render.dfy`, `Addresses.dfy`, `RenderProof.dfy`, `Validation.dfy`, `Patterns.dfy`, `Sorting.dfy` | what routes and rules mean, the configuration compiler, an interpreter for its output, and their agreement |
| `Json.dfy`, `Records.dfy`, `Deploy.dfy`, `Pipeline.dfy`, `Rollback.dfy`, `DraftCases.dfy` | draft merging over JSON, the deploy and its all-or-nothing commit, the rollback diff, a whole rollback, and concrete drafts that go wrong |
| `Retrying.dfy`, `Redelivery.dfy` | the registry of background retries and the job loop, interleaved with everything else; a deploy together with the retries it starts |
| `Health.dfy` | missed heartbeats against ticks of unknown phase, the median gap, staleness, warn hysteresis |
| `RateLimit.dfy`, `LimitProof.dfy`, `Replay.dfy` | token buckets and the replay cache, whose sweeps must not show |
| `Plan.dfy`, `NodeIntent.dfy` | who is in rotation with what share, the row that keeps people's decisions apart from observations, and the removals and recoveries that reach it late |
| `Provider.dfy`, `CloudflareDns.dfy`, `DnsPod.dfy` | reconciling remote record sets when any call may fail |
| `Publish.dfy` | node rows, plan and records together: whose address is published |

How the source's form is kept: objects with locks, caches, rows and remote zones are classes whose
methods are proved against functions of the old state; the concurrency is a relation between
states; everything computed from arguments is a function. Go maps are iterated in an arbitrary
order, which the proofs cover. What the outside world decides (errors, panics, failing calls,
other goroutines, clocks, pattern engines, address ranges) is a parameter, quantified over in
every result. Clocks do not run backwards, a locked section happens at one instant, and floating
point numbers are reals.

## What turned out not to hold

For each of these the model has a concrete run or input (named first) and the condition under
which the promise is kept (named second).

- A draft that renames its route is deleted by the commit without landing, a selected route with an
  empty body limit lands with the default one (`DraftCases.ARenameIsLost`,
  `DraftCases.AnEmptyLimitIsLost`), and two rules whose drafts exchange their ids end up with each
  other's secrets (`DraftCases.AnExchangeLandsExactlyWhen`). For merged ids that differ, pushing the
  store again gives the compiler what the deploy gave it exactly when the selected routes and rules
  exchange their ids among themselves at most, no selected route asks for an empty limit, every
  selected rule takes an id whose secret is its own, and every selected policy's name is taken by
  some policy or had an empty spec (`Deploy.CommitLandsExactlyWhenClean`).
- A null that a draft puts into a policy makes the next draft with an object in its place panic
  (`DraftCases.ANullStopsTheNextDeploy`). Merging panics exactly when a non-empty object meets a
  null (`Json.DeepMerge`).
- A rule's rollback does not always restore it: fields its spec gained since the snapshot survive,
  and a changed type with an unchanged spec loses the spec
  (`Records.GainedFieldSurvivesRollback`). The exact condition is `Records.RuleComesBack`, for one
  rule (`Records.RuleRollbackRestoresExactly`) and through the whole rollback
  (`Rollback.RollbackRestoresExactlyWhen`).
- The value of a path comparison is not escaped: `equals /a*` also catches `/ab`
  (`RenderProof.AWildcardCatchesMore`). The pattern is right, for every operator other than a regular
  expression, exactly when the value has none of the characters `*`, `?`, `[`, `\` and `%`
  (`Patterns.PathPatternMeansOpExactlyWhen`).
- An IPv4 address written as an IPv6 one in an address list is completed with 32 bits of an IPv6
  address (`Addresses.AMappedAddress`). An entry keeps its meaning exactly when it is not one
  (`Addresses.EntryKeepsItsMeaningExactlyWhen`); that 32 bits of that notation are not the whole
  address is an assumption about the web server, `Model.AddressLaws`.
- `docs/api-contract.md:294-302` promises a node that gave no answer up to five further pushes, given
  up only for a new deploy or a restart. If no node took the configuration the old baseline stays,
  and the retry takes it for a newer deploy and gives up before its first push
  (`Redelivery.NobodyIsTriedAgain`). A retry pushes at all exactly when, after its first wait, it is
  not cancelled and the baseline is its own version, or none, or cannot be read (`Retrying.Run`);
  that is, if nothing comes between, when some node took the configuration, or there was no baseline
  before, or it cannot be read (`Redelivery.DeployAndRetry`).
- A deploy whose commit fails is not done until the master restarts, if some node gave no answer: its
  row says it will be tried again, and nothing tries (`Redelivery.ADeployIsNeverDone`). In all other
  cases it is done in the end (`Redelivery.DeployAndRetry`).
- A node can be out of service and receive traffic: the DNS switch checks and writes in two
  statements, and a drain fits between them (`NodeIntent.ToggleCanLoseToADrain`). It happens
  exactly when such a write lands while the node is out (`NodeIntent.OutMeansOffExactlyWhen`).
- A node can stay off although it is alive: when a heartbeat between the decision that it is down
  and the write that removes it lets the recovery overtake the removal
  (`NodeIntent.OvertakenRemovalStrandsTheNode`), and when the recovery's write fails, which is
  logged and not tried again (`NodeIntent.FailedRecoveryStrandsTheNode`). It is off for being
  offline exactly when some removal that took effect was answered by no recovery that took effect
  and by no person (`NodeIntent.OffForBeingOfflineExactlyWhen`).
- A completed DNSPod sync leaves a stale record behind when two records share line and address,
  because only the one listed later is looked at (`DnsPod.ATwinIsLeftBehind`). It leaves exactly
  the wanted records in whatever order they are listed exactly when every record with such a twin
  is already as wanted (`DnsPod.ExactInEveryOrder`).
- The sweep of one rate limit clears another's buckets if the other's id continues its own after a
  bar (`LimitProof.SweepCrossesABar`). It does not if no id of the rules that are pushed contains a bar
  (`LimitProof.PlainIdsArePrefixFree`). The form of ids (`internal/model/ids.go:16`) is checked where
  resources are created (`internal/api/config_res.go:302`), but a draft may give a rule another one.
- A signature accepted before the instant it claims can be used once more later; accepted at or
  after it, never (`Replay.OnlyTheFutureCanBeReplayed`). If the window check and the cache look-up
  of the second use are apart, they must lie on either side of the expiry
  (`Replay.SecondUseStraddlesExpiry`).
- The note that the lines differ misses empty lines before the first one in use, but not after it
  (`CloudflareDns.EmptyLinesDifferOnlyAfterwards`, `CloudflareDns.Collapse`).

## Model

| member | source | states |
|---|---|---|
| `Coalescer.RunKeepsInv` | internal/dnsops/orchestrator.go:405-451 | every legal interleaving of calls, store writes, errors and panics keeps the invariant: who holds which mutex, who is registered, whose channel is open, what each sync has read |
| `Coalescer.StepKeepsInv` | internal/dnsops/orchestrator.go:405-451 | each single step keeps the invariant, for every call and not only the one that moved |
| `Coalescer.InvokeKeepsInv` | internal/dnsops/orchestrator.go:377-385 | a call may arrive at any moment without disturbing the others |
| `Coalescer.FinishedCallWasServedFresh` | internal/dnsops/orchestrator.go:405-451 | a call that finishes was served by one finished sync that started no earlier than the call and read no store version older than the call. Told of no error, that sync made all its reads, found a target, and made one push for every target, none of which failed; told of an error without a panic, a read or a push failed or there was no target, and in the case of a push every target was still pushed to. The status it stored says all is well exactly if it was |
| `Coalescer.WaitersShareOneSync` | internal/dnsops/orchestrator.go:406-416 | two folded calls whose sync has not started wait for the same one, the registered one |
| `Coalescer.CallsFoldIntoFewSyncs` | internal/dnsops/orchestrator.go:387-416 | all calls that arrive from some moment on are served by the syncs started since plus at most one more |
| `Coalescer.SyncsNeverOverlap` | internal/dnsops/orchestrator.go:225-231 | each sync ends before the next starts, and later ones never read older versions |
| `Coalescer.AtMostOneIsSyncing` | internal/dnsops/orchestrator.go:225-231 | in every interleaving at most one call is inside a sync |
| `Coalescer.QuietMeansCaughtUp` | internal/dnsops/orchestrator.go:429-451 | once all calls have finished, returning or panicking, both mutexes are free, nothing is pending, each ready channel was closed exactly once, and the last sync is no older than any call and, if it returned without an error, has read everything and pushed to every target without a failure |
| `Coalescer.AnswerKeepsAccount` | internal/dnsops/orchestrator.go:303-371 | at every point of a sync its account agrees with what the provider, the settings and the store have answered so far: which reads are behind it, how many targets are left, whether some push failed |
| `Coalescer.StepsRunOut` | internal/dnsops/orchestrator.go:303-371 | every step of a call lowers a lexicographic measure that no other call raises |
| `Coalescer.SomeCallCanStep` | internal/dnsops/orchestrator.go:405-451 | no deadlock: while a call is unfinished some call can step, whatever the outside world answers |
| `Coalescer.AllCallsFinish` | internal/dnsops/orchestrator.go:418-451 | from any reachable state, whatever fails or panics, running the existing calls finishes all of them: no waiter is stranded |
| `Orchestration.Orchestrator.Arrive` | internal/dnsops/orchestrator.go:377-385 | a new call is the step system's invocation |
| `Orchestration.Orchestrator.StoreWrite` | internal/dnsops/orchestrator.go:303-327 | the store may be written to between any two steps of a sync |
| `Orchestration.Orchestrator.LockCoalesce` | internal/dnsops/orchestrator.go:406 | taking the first lock on the way in is that step, and nothing else changes |
| `Orchestration.Orchestrator.FollowOrLead` | internal/dnsops/orchestrator.go:407-416 | a call follows the registered one if there is one and registers itself otherwise |
| `Orchestration.Orchestrator.Await` | internal/dnsops/orchestrator.go:411-412 | a follower returns the error of the call it waited for |
| `Orchestration.Orchestrator.ClearPending` | internal/dnsops/orchestrator.go:446-448 | the leader takes itself off before its first read |
| `Orchestration.Orchestrator.LockMu` | internal/dnsops/orchestrator.go:444 | a leader waits for the running sync: taking the sync lock is that step, possible only when it is free |
| `Orchestration.Orchestrator.LockCoalesceAgain` | internal/dnsops/orchestrator.go:446 | and the first lock again, with the sync lock held |
| `Orchestration.Orchestrator.SyncStep` | internal/dnsops/orchestrator.go:303-371 | each read, push and status write of a sync is one step, which records the answer it was given, and each may fail or panic |
| `Orchestration.Orchestrator.UnlockMu` | internal/dnsops/orchestrator.go:445 | the sync lock is released however the sync ended |
| `Orchestration.Orchestrator.CloseReady` | internal/dnsops/orchestrator.go:429-440 | the deferred close records the outcome, also of a panic, and closes the channel once |
| `Orchestration.SyncOnce` | internal/dnsops/orchestrator.go:303-371 | every target is pushed to although earlier ones failed, its result is reported, and the error is that of the first target in order that failed |
| `RenderProof.RenderedListDecides` | internal/render/render.go:91-190 | for every valid configuration whose address lists hold no IPv4 address in IPv6 notation and whose path comparisons no wildcard, and every request, running the rendered list first-match with terminal stops against the agent's rules gives the intended decision, stated in the rules' own terms: dropped for an unknown host, blocked when a bound rule or the whitelist rejects, refused by the failing verification with the least id, otherwise proxied, with the route's body limit and compression |
| `RenderProof.ReachesTheOriginExactlyWhenAllowed` | internal/render/render.go:91-190 | no rule can be bypassed and nothing else stops a request: under the same hypotheses it reaches the origin of the route responsible for it exactly if the route has no whitelist or lists its address, and no enabled rule bound to the domain has anything against it, in the rule's own fields |
| `RenderProof.Compile` | internal/render/render.go:91-190 | output exists exactly for valid routes and rules and policies without a problem, and the plain and the encrypted server both decide every request as intended |
| `RenderProof.SomeRouteIsResponsible` | internal/render/render.go:100-116 | a request whose host matches some route has a responsible one, the first in domain order |
| `RenderProof.IntendedIsDecisive` | internal/render/render.go:91-190 | the intended decision is unique, the refusing rule included |
| `RenderProof.RuleDenyRouteMeansRule` | internal/render/render.go:317-378 | the route rendered for a rule, addresses in plain notation and paths without wildcards, blocks exactly the requests to its domain that the rule rejects |
| `RenderProof.DenyRouteMeansWhitelist` | internal/render/render.go:278-292 | the whitelist route blocks exactly the addresses outside the whitelist |
| `RenderProof.FilterMatchersAreAlternatives` | internal/render/render.go:384-416 | the matchers of a filter rule whose paths have no wildcards match exactly when one of its filters hits |
| `RenderProof.AWildcardCatchesMore` | internal/render/render.go:384-433 | a valid filter on a path with a wildcard, whose matcher catches a request the filter does not hit |
| `RenderProof.ProxyRouteDecides` | internal/render/render.go:533-592 | the last route of a domain answers every request: by the first rule in order whose verification fails, or by proxying, with bodies limited exactly if the route has a limit and to that size, and compressed if it asks for that |
| `RenderProof.FirstRefusalIsIntended` | internal/render/render.go:298-311 | among rules in id order that first one is the refusing rule with the least id |
| `RenderProof.VerifyRuleCarriesTheClaim` | internal/render/render.go:205-227 | what is sent of a valid rule of each kind lets the agent ask exactly what the rule asks |
| `RenderProof.RunOneDomain` | internal/render/render.go:100-190 | the routes of one domain decide its requests and let all other hosts pass |
| `RenderProof.AgentKnows` | internal/render/render.go:197-230 | the agent holds, under its id, each effective rule that needs verification |
| `RenderProof.AgentHoldsExactly` | internal/agent/verify.go:96-115 | and it holds nothing else |
| `RenderProof.AgentGetsCompleteRules` | internal/render/render.go:720-876 | the agent of a valid configuration holds no rule set up halfway: limits have requests and a window, signatures a secret and a window, tokens a source of keys, country rules countries |
| `RenderProof.RenderIgnoresInputOrder` | internal/render/render.go:298-311 | any permutation of routes and rules renders to the same list and the same agent rules |
| `RenderProof.VerifyPathsAndRulesAgree` | internal/render/render.go:197-230 | every verification rule sent to the agent is asked for by some rendered route |
| `RenderProof.ConfiguredPathHasRule` | internal/render/render.go:463-519 | every verification path anywhere in the rendered list has its rule at the agent |
| `RenderProof.HeadersDecideNothing` | internal/render/render.go:236-248 | the route that sets response headers changes no decision |
| `Render.BuildRoutes` | internal/render/render.go:91-190 | the rendering loops produce the specified list over sorted routes and rules |
| `Render.BuildRouteBlock` | internal/render/render.go:104-116 | one domain's routes come in the order rules, whitelist, proxy |
| `Render.BuildProxyRoute` | internal/render/render.go:533-592 | verifications come before limits and the proxy |
| `Render.RulesByDomain` | internal/render/render.go:298-311 | each domain gets its enabled rules in id order, once for each time it is listed |
| `Render.CollectFilterMatchers` | internal/render/render.go:384-416 | filters without a rendering are left out, the others keep their order |
| `Render.CollectRanges` | internal/render/render.go:599-621 | blank entries are dropped, blocks kept, addresses completed, in order |
| `Render.CollectVerifyRules` | internal/render/render.go:197-230 | the agent's rules are those of the effective rules that need it, in id order |
| `Addresses.EntryKeepsItsMeaningExactlyWhen` | internal/render/render.go:599-621 | a valid entry is rendered as exactly the addresses it stands for, if and only if it is not an IPv4 address in IPv6 notation |
| `Addresses.NormalizingKeepsMembership` | internal/render/render.go:599-621 | trimming and completing a list of valid entries in plain notation changes no address's membership; an entry means its text without surrounding blanks, as one address or a block |
| `Addresses.AMappedAddress` | internal/render/render.go:610-612 | a one-entry list whose membership completing changes |
| `Addresses.CoreIsTrim` | internal/render/render.go:602 | the text of an entry without surrounding blanks is unique, and is what trimming gives |
| `Patterns.UnquoteUndoesQuote` | internal/render/render.go:439-453 | quoting is undone by reading the pattern back, with or without an end anchor |
| `Patterns.HeaderPatternMeansOp` | internal/render/render.go:439-453 | the pattern built for an operator finds a string exactly when the operator holds, for any engine that is right on literals and anchors |
| `Patterns.PathPatternMeansOp` | internal/render/render.go:422-433 | the same for path globs of values without wildcards |
| `Patterns.PathPatternMeansOpExactlyWhen` | internal/render/render.go:422-433 | for a non-empty value the path glob matches exactly the paths the operator accepts, for every engine, if and only if the value has no wildcard |
| `Patterns.AWildcardIsNotEscaped` | internal/render/render.go:422-433 | equals `/a*` matches `/ab` |
| `Patterns.LowerKeepsPlain` | internal/render/render.go:422-433 | lower-casing brings no wildcard in |
| `Patterns.LowerKeepsPathPattern` | internal/render/render.go:422-433 | lower-casing a path pattern is the pattern of the lower-cased value |
| `Validation.Validate` | internal/render/render.go:626-675 | no issue is reported exactly for valid input; what passes has hosts and origins that can be used, each host once, and rules in effect bound to its own hosts |
| `Validation.ValidateRules` | internal/render/render.go:677-711 | the same for the rules of a configuration, duplicate ids and unknown domains included |
| `Validation.RuleSpecIssues` | internal/render/render.go:720-876 | the same for one rule's spec |
| `Sorting.SortedIsUnique` | internal/render/render.go:100-103 | a sorted list without equal keys is determined by its elements |
| `Sorting.Sort` | internal/render/render.go:100-103 | the result is sorted and has the same elements |
| `Sorting.LessByFirstDifference` | internal/render/render.go:100-103 | the order is that of the first difference, a text before its continuations |
| `Json.DeepMerge` | internal/deploy/deploy.go:533-550 | merging in place gives the recursive overlay, in any key order, and panics exactly when a non-empty object meets a null |
| `Json.MergeRestoresExactlyWhenHidden` | internal/deploy/deploy.go:533-550 | laying a document over another gives the document itself exactly when no object underneath has a key of its own |
| `Json.FieldDiff` | internal/deploy/snapshot.go:118-144 | the patch holds exactly the fields of the snapshot that differ, but never the version |
| `Json.DiffMergesLikeWholeSnapshot` | internal/deploy/snapshot.go:118-144 | laying the patch over the live record is laying the whole snapshot without its version over it, and the two panic alike |
| `Records.RouteRollbackRestores` | internal/deploy/snapshot.go:39-112 | a route always comes back exactly, apart from its version |
| `Records.SameTypeRollback` | internal/deploy/deploy.go:560-573 | a rule of unchanged type comes back except that the two specs are merged |
| `Records.ChangedTypeRollback` | internal/deploy/deploy.go:560-573 | a rule of changed type comes back, but with an empty spec if the spec had not changed |
| `Records.RuleRollbackRestoresExactly` | internal/deploy/deploy.go:560-573 | a rule comes back exactly when no field was gained under the same type, or a changed type had a changed or empty spec |
| `Records.GainedFieldSurvivesRollback` | internal/deploy/deploy.go:507-530 | a concrete rule that keeps a field set after the snapshot |
| `Deploy.RowsLandExactlyWhenClean` | internal/store/commit.go:59-126 | for the routes or the rules, with merged ids that differ: pushing the store again gives the compiler the rows and secrets the deploy gave it, if and only if the names the selected rows merged to are the selected ids, no selected route has an empty body limit, and every selected rule takes an id whose secret is its own |
| `Deploy.PolicyLandsExactlyWhenClean` | internal/deploy/deploy.go:428-446 | for each of the two policies, its spec is given again if and only if, when selected, some policy took its name or its live spec is empty |
| `Deploy.ListedAfter` | internal/store/commit.go:66-96 | the row under an id after a commit is that of the selected resource that merged to it, rendering as merged unless a route's body limit was empty, and otherwise the row it was |
| `Deploy.CommitAdvancesVersions` | internal/store/commit.go:104-126 | a commit advances the version of each live row that was selected by exactly one, and leaves every other row as it was, version included |
| `Deploy.SameValuesAreExchanged` | internal/store/commit.go:66-96 | if two keyings of the same rows differ by an injective renaming, the renaming permutes the keys |
| `Deploy.CommitLandsExactlyWhenClean` | internal/store/commit.go:59-126 | for the whole configuration, with merged ids that differ: pushing the baseline again gives the compiler what the deploy gave it, if and only if routes, rules and policies meet those conditions |
| `Deploy.RowLandsExactlyWhenClean` | internal/store/commit.go:59-126 | one resource lands as rendered exactly when its own draft keeps its identity and asks for no empty body limit, whatever the other drafts do short of taking its name |
| `Deploy.NoDraftVanishes` | internal/store/commit.go:104-126 | a draft leaves the store only by a commit that selected it, and then its live row renders as the draft laid over the old row exactly when that draft is clean |
| `Deploy.RenamingDraftDoesNotLand` | internal/store/commit.go:66-96 | a renaming draft leaves the live row as it was |
| `DraftCases.ARenameIsLost` | internal/store/commit.go:66-96 | a store and a draft renaming its route: after the commit the draft is gone and the compiler is given something else than the deploy gave it |
| `DraftCases.AnEmptyLimitIsLost` | internal/store/routes.go:78-93 | a store and a draft taking the body limit away, with the same outcome |
| `DraftCases.AnExchangeLandsExactlyWhen` | internal/store/commit.go:66-84 | two drafts that exchange their ids, in any store: routes that keep a body limit land, rules if and only if their secrets are the same |
| `DraftCases.ANullStopsTheNextDeploy` | internal/deploy/deploy.go:507-550 | two drafts of a policy: once the first, a null, is committed, merging the second, an object, panics |
| `Deploy.WithoutDraftsLiveIsEffective` | internal/deploy/deploy.go:366-471 | without drafts the effective rows are the live ones |
| `Deploy.EffectiveRowsOverlay` | internal/deploy/deploy.go:366-471 | effective rows differ from the live ones only where a selected draft is |
| `Deploy.CollectRows` | internal/deploy/deploy.go:401-442 | merging row by row fails as a whole when one row cannot be merged |
| `Pipeline.Store.CommitDeploy` | internal/store/commit.go:59-126 | either every statement succeeds and all of it is visible, or one fails and rows, baseline, versions and drafts are as before |
| `Pipeline.Store.UpsertSelected` | internal/store/commit.go:66-96 | rows whose merged id is selected are written in list order until a statement fails |
| `Pipeline.Store.ReadEffective` | internal/deploy/deploy.go:366-471 | reads the effective configuration, or nothing if a selected draft cannot be merged |
| `Pipeline.Store.Deploy` | internal/deploy/deploy.go:114-328 | a refused deploy changes nothing; otherwise it counts exactly the nodes that took the configuration, commits only if there was one, and then exactly if the commit held, the baseline then being its version; unless the commit failed, a retry is announced for exactly the nodes that neither took it nor answered |
| `Pipeline.PushAll` | internal/deploy/deploy.go:246-262 | the count is the number of targets that took the configuration, an answer that refuses it counting for nothing, and to be retried are exactly those that gave no answer |
| `Redelivery.DeployAndRetry` | internal/deploy/deploy.go:264-315 | a deploy with the retry it announces: if nothing comes between, the retry pushes if and only if some node gave no answer and, when some node took the configuration, the commit held, or, when none did, there was no baseline or it cannot be read; in the end the deploy is done unless some node took the configuration, some gave no answer and the commit failed |
| `Redelivery.NobodyIsTriedAgain` | internal/deploy/retry.go:134-140 | a store with a baseline and one node that gives no answer: the retry is announced and makes no push |
| `Redelivery.ADeployIsNeverDone` | internal/deploy/deploy.go:280-302 | one node takes the configuration, one gives no answer, the commit fails: the deploy keeps running with nothing left to run |
| `Redelivery.PhaseAfterRetries` | internal/api/deploys.go:128-138 | with the rows the retry leaves, the deploy is done if and only if every node that owed an answer was in the retry |
| `Pipeline.Store.PutDrafts` | internal/store/drafts.go:82-117 | a rollback's drafts are written all or none |
| `Pipeline.DiffToDrafts` | internal/deploy/snapshot.go:39-112 | a draft for exactly the resources that differ, and exactly the resources on one side only are skipped |
| `Pipeline.RouteDraftsRestore` | internal/deploy/snapshot.go:39-112 | deploying a route's rollback draft restores the snapshot's route |
| `Pipeline.RuleDraftsRestore` | internal/deploy/snapshot.go:39-112 | deploying a rule's rollback draft restores the snapshot's rule exactly under the condition above |
| `Pipeline.RollbackAccountsForEverything` | internal/deploy/deploy.go:931-980 | every resource of either side is skipped by name or ends as the snapshot has it, with the exact exception |
| `Rollback.RollbackIsDeployable` | internal/deploy/deploy.go:931-980 | the drafts a rollback writes can always be merged, and none lacks its resource |
| `Rollback.RollbackRestoresExactlyWhen` | internal/deploy/deploy.go:931-980 | after the drafts have been written, deployed and committed, a live resource of both sides renders as the snapshot's exactly when it is a rule that comes back, or a route whose draft does not write an empty body limit |
| `Retrying.Retrier.Register` | internal/deploy/retry.go:56-81 | the registry holds exactly the handles of live jobs, also when two enqueues of one deploy register out of order; the replaced job, and no other, is cancelled |
| `Retrying.Retrier.CleanUp` | internal/deploy/retry.go:84-96 | a job removes its own handle and never that of the job that replaced it |
| `Retrying.Retrier.StopAll` | internal/deploy/retry.go:100-107 | afterwards no job is live and the registry is empty |
| `Retrying.Retrier.Interfere` | internal/deploy/retry.go:56-107 | any steps of other goroutines keep the registry exact and never end a looping job, though they may cancel it; only a new baseline, a stop or another retry of its deploy reaches it |
| `Retrying.Attempt` | internal/deploy/retry.go:142-175 | in one pass a cancelled job starts at most one more push, each node is pushed to at most once for each place it has, and only unanswered nodes stay |
| `Retrying.MayStart` | internal/deploy/retry.go:123-140 | a job goes on to push exactly when it is not cancelled and the baseline is its version, or none, or cannot be read; it gives up only if cancelled or the baseline is another version |
| `Retrying.Run` | internal/deploy/retry.go:118-177 | at most five pushes for each place of a node, at most one of them after cancellation, no row left saying it will change, an early end only when cancelled or superseded, and otherwise no unanswered node given up before five attempts; the first push starts if and only if, after the first wait, the job is not cancelled and the baseline is its version, or none, or cannot be read |
| `Retrying.RunJob` | internal/deploy/retry.go:84-97 | after its cleanup the job is in no registry entry |
| `Retrying.PhaseFollowsTheJob` | internal/api/deploys.go:128-138 | with whatever rows the job has written so far, the deploy is running exactly while one of them says it will change; so it is done once the job has ended, however it ended |
| `Retrying.AbandonSettles` | internal/deploy/retry.go:183-187 | every abandoned node gets a final row and no other row changes |
| `Health.SilentNodeGoesDownInWindow` | internal/health/health.go:518-541 | a node silent since e is declared down at exactly one tick T, and e + D + (N-1)I <= T < e + D + N I, for every phase of the ticks |
| `Health.MissesCountLateTicks` | internal/health/health.go:518-541 | after any number of ticks the misses are the ticks past the deadline, up to the threshold |
| `Health.NoNodeGoesDownBeforeThresholdTicks` | internal/health/health.go:444-507 | a node just warmed, heard from or shaken hands with takes at least N ticks to go down, at whatever instants they come |
| `Health.StaleSampleMeansDown` | internal/health/health.go:375-401 | a sample older than the staleness bound, with nothing heard since, belongs to a node already down |
| `Health.EvidenceClearsTheCount` | internal/health/health.go:297-307 | heartbeats and handshakes restart the count; a handshake brings no node back |
| `Health.MedianResistsOutliers` | internal/health/health.go:201-208 | if more than half of the measured gaps lie in a range, so does the gap used |
| `Health.LateInItsOwnTerms` | internal/health/health.go:518-531 | a node is late exactly when both an interval and its usual gap have passed since it was last heard from; the gap is the assumed one before any is measured, and else lies where most of the measured ones lie |
| `Health.GapsAreTimesBetweenBeats` | internal/health/health.go:264-273 | a heartbeat measures the time since the last one, unless a handshake came between, and the last five are kept |
| `Health.HoveringCannotFlap` | internal/health/health.go:315-343 | over any heartbeats, all ok/warn changes but one cost five points of variation of processor and memory load |
| `Health.StatusByLoad` | internal/health/health.go:315-343 | at or above a limit a node is warned, below both by more than five points it is healthy, in between it stays what it was |
| `Health.Monitor.ObserveAt` | internal/health/health.go:230-286 | a heartbeat records the sample and the gap, clears the count, announces a change of status only, and recovers a node that was down |
| `Health.Monitor.Alive` | internal/health/health.go:297-308 | a handshake clears the count of a known node and makes the outage no gap |
| `Health.Monitor.TickAt` | internal/health/health.go:518-541 | every node is judged by its own deadline, and exactly the nodes that newly reached the threshold are down |
| `Health.Monitor.SetTiming` | internal/health/health.go:162-175 | only values that make sense take effect |
| `Health.Monitor.Warm` | internal/health/health.go:464-507 | exactly the stored nodes that are neither drained nor already known are loaded, with no misses, and as already reported if stored as down |
| `Health.Monitor.StaleAfter` | internal/health/health.go:393-401 | the bound is the largest deadline of all nodes, an unmeasured one included, plus the threshold in intervals |
| `Health.Monitor.constructor` | internal/health/health.go:131-151 | settings that make no sense fall back to three seconds, five misses, three seconds, 80 and 90 percent |
| `Health.Monitor.Forget` | internal/health/health.go:414-418 | a forgotten node's state is gone, and no other's |
| `LimitProof.SweepsAreInvisible` | internal/agent/ratelimit.go:88-150 | in any run, sweeps of single rules and of orphans anywhere in between change no answer |
| `LimitProof.WindowIsBounded` | internal/agent/ratelimit.go:39-73 | in any window of any run with sweeps, one client of one rule is admitted at most the rule's requests, plus those requests times the length of the window over the rule's window |
| `LimitProof.IdleClientHasItsBurst` | internal/agent/ratelimit.go:51-64 | the bound is attained: a client that asks nothing for a window of its rule, or never asked, can have all the rule's requests at once, whatever sweeps and other clients do |
| `LimitProof.OneRequestForEachPart` | internal/agent/verify.go:184-189 | and in each part of the window that one request stands for, exactly one more, up to the rule's requests |
| `LimitProof.CreditIsSpendable` | internal/agent/ratelimit.go:63-66 | so many requests at once are admitted as the client has credit for |
| `LimitProof.WaitingIsRewarded` | internal/agent/verify.go:184-199 | a refused client that waits the delay it was told is admitted, whatever sweeps and other clients do |
| `LimitProof.RetryAfterIsTight` | internal/agent/ratelimit.go:69-72 | the delay is at least a second, long enough for one token, and at most a second longer |
| `LimitProof.PlainIdsArePrefixFree` | internal/model/ids.go:16 | ids without a bar never share a bucket prefix |
| `LimitProof.SweepCrossesABar` | internal/agent/ratelimit.go:135-150 | a concrete run in which an id with a bar loses its count to another rule's sweep |
| `LimitProof.CreditStep` | internal/agent/ratelimit.go:39-73 | a client's credit falls by one exactly when one of its requests is admitted; nothing else touches it, sweeps included |
| `LimitProof.AdmitsMeansAdmitted` | internal/agent/verify.go:184-199 | the credit condition is what the endpoint answers |
| `RateLimit.Limiter.Allow` | internal/agent/ratelimit.go:39-73 | the bucket is filled up to the burst by the time since its last use, charged a token if it has one, and a half-configured rule lets everything pass |
| `RateLimit.Limiter.Serve` | internal/agent/verify.go:166-199 | an unknown rule is refused, a limiting one answers by its bucket |
| `RateLimit.Limiter.SweepPrefix` | internal/agent/ratelimit.go:135-150 | exactly the full buckets of the prefix go, and the count is returned |
| `RateLimit.Limiter.DropOrphans` | internal/agent/ratelimit.go:112-133 | exactly the buckets of no limiting rule go, half-configured rules keeping theirs |
| `RateLimit.Limiter.SweepAll` | internal/agent/ratelimit.go:88-97 | a bucket stays exactly when some rule owns it and no rule finds it full by its own parameters, in any order of the rules |
| `Replay.RefusedExactlyWhileRemembered` | internal/agent/verify.go:351-382 | in any run with any sweeps, a genuine request inside its window is refused exactly while an earlier acceptance of its signature has not expired, whatever windows other rules have |
| `Replay.CacheIsHistory` | internal/agent/verify.go:351-382 | the swept cache answers like the full history of acceptances |
| `Replay.SecondUseStraddlesExpiry` | internal/agent/verify.go:285-311 | a second acceptance needs its window check before and its look-up after the first one's expiry |
| `Replay.NoSecondUse` | internal/agent/verify.go:285-311 | with both at one instant there is none, for a signature accepted no earlier than its timestamp |
| `Replay.OnlyTheFutureCanBeReplayed` | internal/agent/verify.go:285-311 | an accepted signature can be used again at some later instant if and only if it was accepted before its timestamp |
| `Replay.AcceptedIsGenuineAndInTime` | internal/agent/verify.go:285-311 | nothing is accepted in any run outside its window |
| `Replay.ReuseIsBounded` | internal/agent/verify.go:285-311 | a second use comes more than a window after the first, which was before the timestamp, and both lie within a window of the timestamp, so at most two windows apart |
| `Replay.NeverAThirdUse` | internal/agent/verify.go:285-311 | no guarded signature is accepted three times |
| `Replay.ReplayCache.Admit` | internal/agent/verify.go:351-362 | an unexpired entry refuses and stays, anything else admits and records the new expiry |
| `Replay.ReplayCache.Sweep` | internal/agent/verify.go:369-382 | exactly the expired entries go |
| `Replay.ReplayCache.Verify` | internal/agent/verify.go:285-311 | a request is accepted exactly if it is genuine, its check lies no more than the window before or after its timestamp, and, if guarded, no unexpired entry remembers it; only an accepted guarded request is recorded |
| `Plan.RotationIsExact` | internal/dnssched/plan.go:188-193 | for nodes with different ids: a node is in a line's rotation exactly when it is known, switched on and not down, has a weight on the line or is not out of service, and has a positive weight wherever weights can be expressed |
| `Plan.EntrySaysOfItsNode` | internal/dnssched/plan.go:183-200 | an entry carries its node's address, switch and status and the weight set for it, or none; an unknown node has none of these and is not in rotation |
| `Plan.PlanIgnoresInputOrder` | internal/dnssched/plan.go:143-214 | the same nodes in any order give the same plan |
| `Plan.SharesAddUp` | internal/dnssched/plan.go:202-209 | with k nodes in rotation and some weight the shares add up to 100 within 0.05 k; with none they are all zero |
| `Plan.ShareIsItsPart` | internal/dnssched/plan.go:202-209 | the share of a node in rotation is its part of the weight in rotation, in percent, within 0.05; anything else has none |
| `Plan.SharesFollowWeights` | internal/dnssched/plan.go:202-209 | no share outside rotation, and within it more weight is never less share |
| `Plan.RoundingIsClose` | internal/dnssched/plan.go:233 | rounding to one decimal moves a share by at most 0.05 |
| `Plan.BuildLine` | internal/dnssched/plan.go:154-212 | each weighted or undrained node exactly once, in ascending order, normalised over those in rotation without ever dividing by zero |
| `Plan.Build` | internal/dnssched/plan.go:143-214 | all five lines, in order |
| `Plan.CollectIds` | internal/dnssched/plan.go:169-182 | exactly the candidates, none twice |
| `Plan.Rotation` | internal/dnssched/plan.go:217-231 | the entries in rotation of the line's first plan, none for an unknown line |
| `NodeIntent.PersonsOffLasts` | internal/store/nodes.go:184-378 | once a person has switched a node off or out, nothing but a person switching it on changes that |
| `NodeIntent.PersonsOffGetsNoTraffic` | internal/dnssched/plan.go:188-193 | such a node is in no plan's rotation, for any weights and any line |
| `NodeIntent.RemovedNodeReturns` | internal/store/nodes.go:367-378 | a node the system removed and no person touched is back, on and unmarked, after a heartbeat and a reattachment in either order |
| `NodeIntent.AutoOfflineMeansOff` | internal/store/nodes.go:184-205 | in every run, a node marked as removed by the system is off |
| `NodeIntent.OutMeansOffExactlyWhen` | internal/api/nodeops.go:74-100 | in every run, a node out of service stays off if and only if no write that switches it on lands while it is out |
| `NodeIntent.ToggleCanLoseToADrain` | internal/api/nodeops.go:92-100 | a concrete run in which it does |
| `NodeIntent.OffForBeingOfflineExactlyWhen` | internal/health/health.go:538-628 | over all runs of the monitor and of people, with failing writes: a node is off for being offline if and only if some removal that took effect was answered by no recovery that took effect and by no person |
| `NodeIntent.UntouchedNodeReturnsExactlyWhen` | internal/health/health.go:610-628 | a node no person touched is on exactly when every removal that took effect was followed by a recovery that took effect |
| `NodeIntent.QuietNodeIsStrandedExactlyWhen` | internal/health/health.go:610-628 | with nothing pending and the node believed up, it is stranded exactly when such an unanswered removal is left |
| `NodeIntent.RecoveriesInOrderStrandNoNode` | internal/health/health.go:610-628 | a schedule that suffices: no recovery overtakes the removal before it or fails, and no write switches on a drained node |
| `NodeIntent.QuietNodeIsNotStranded` | internal/health/health.go:538-568 | under that schedule no removal is left unanswered once nothing is pending |
| `NodeIntent.OvertakenRemovalStrandsTheNode` | internal/health/health.go:281-284 | a run in which a heartbeat lets the recovery overtake the removal |
| `NodeIntent.FailedRecoveryStrandsTheNode` | internal/health/health.go:610-628 | a run in which the recovery comes in its place and its write fails |
| `NodeIntent.HeartbeatsDoNotFreeIt` | internal/health/health.go:275-284 | such a node stays off through all further heartbeats |
| `NodeIntent.NodeRow.TouchHeartbeat` | internal/store/nodes.go:117-139 | a heartbeat touches the status only |
| `NodeIntent.NodeRow.SetNodeDown` | internal/store/nodes.go:184-205 | the node is down and off, and counts as removed by the system only if it was on |
| `NodeIntent.NodeRow.ReattachAfterRecovery` | internal/store/nodes.go:367-378 | exactly what the system removed, and is not drained, is put back |
| `NodeIntent.NodeRow.SetNodeDns` | internal/store/nodes.go:259-269 | the switch records who and why |
| `NodeIntent.NodeRow.SetNodeDrained` | internal/store/nodes.go:215-227 | draining switches off, undoing it switches nothing on |
| `NodeIntent.NodeRow.Toggle` | internal/api/nodeops.go:74-116 | a drained node is refused and unchanged; otherwise the write, if it succeeds, follows whatever came between |
| `NodeIntent.NodeRow.TakeOut` | internal/api/nodeops.go:189-262 | once the mark is saved the node is off and drained whatever came between and whether or not the first switch could be written; without the mark the row is that of the switch and the steps around it, and it is still off if the switch was written and only the system acted meanwhile |
| `NodeIntent.NodeRow.TakeBack` | internal/api/nodeops.go:282-299 | rejoining changes the mark and nothing else |
| `CloudflareDns.Adapter.Sync` | internal/dnsctl/cloudflare_dns.go:72-90 | at no point is a host that had an address without one; an empty rotation changes nothing; a completed run leaves exactly the wanted addresses and touches nothing else; a second run makes no call |
| `CloudflareDns.Reconcile` | internal/dnsctl/cloudflare_dns.go:160-202 | after every single call, failed ones included, nothing is gone unless every wanted address has its record, no address has got a second one, and every record added has the type of its address |
| `CloudflareDns.NeverEmpty` | internal/dnsctl/cloudflare_dns.go:177-200 | that condition keeps a host that had an address from losing its last one |
| `CloudflareDns.CarefulKeepsOthers` | internal/dnsctl/cloudflare_dns.go:208-254 | nor touches, adds or removes a record of another name or type |
| `CloudflareDns.AddMissing` | internal/dnsctl/cloudflare_dns.go:179-191 | adds exactly the missing addresses, stopping at the first failure |
| `CloudflareDns.DeleteExtra` | internal/dnsctl/cloudflare_dns.go:192-200 | deletes exactly the records nobody wants, stopping at the first failure |
| `CloudflareDns.Collapse` | internal/dnsctl/cloudflare_dns.go:121-144 | the union of all lines' addresses, each once and sorted, and whether the lines differ |
| `CloudflareDns.EmptyLinesDifferOnlyAfterwards` | internal/dnsctl/cloudflare_dns.go:127-133 | two plans with one node in rotation: empty lines before it set no note, empty lines after it do |
| `CloudflareDns.WantedIsTheRotation` | internal/dnsctl/cloudflare_dns.go:121-144 | for a built plan the wanted addresses of a line are those of its nodes in rotation |
| `CloudflareDns.Zone.List` | internal/dnsctl/cloudflare_dns.go:208-247 | the host's address records and no others |
| `Publish.PublishedExactlyWhenServing` | internal/dnsctl/cloudflare_dns.go:72-90 | after a completed sync an address is published exactly when some node with it is in rotation on some line |
| `Publish.PublishedExactlyForLiveNodes` | internal/dnsctl/cloudflare_dns.go:72-90 | said of the nodes: an address is published exactly when, on some line, some node with it is switched on, not down, weighted or in service, and weighted wherever weights count |
| `Publish.DownIsUnpublished` | internal/dnssched/plan.go:188-193 | the address of a node that is down is in no completed sync's records, unless a node that is switched on and not down shares it |
| `Publish.PublishedOnLineExactlyForLiveNodes` | internal/dnsctl/dnspod.go:79-157 | the same line by line at the provider that keeps lines apart |
| `Publish.PublishedWithItsWeight` | internal/dnsctl/dnspod.go:119-141 | and a record there that has a weight has that of a node with the address |
| `Publish.SwitchedOffIsUnpublished` | internal/store/nodes.go:342-378 | the address of a node a person switched off is in no completed sync's records, however often the system saw it go down and come back, unless another node shares it |
| `Publish.RecoveredIsPublished` | internal/health/health.go:610-637 | the address of a node the system removed is published by a completed sync after its recovery |
| `DnsPod.Sync` | internal/dnsctl/dnspod.go:79-157 | at no point is a sub-domain that had a managed address without one, nor a line that had one and still wants one; an empty rotation changes nothing; a completed run leaves exactly the wanted records and weights if and only if, in the order listed before the call, every record hidden behind a later twin is as wanted, and in any order if every record with a twin is; it makes no twins; a second run makes no call |
| `DnsPod.ExactInEveryOrder` | internal/dnsctl/dnspod.go:111-117 | the condition on the zone before the call: that holds for every listing order if and only if every managed record that shares line and address with another is wanted with the weight it has |
| `DnsPod.Converge` | internal/dnsctl/dnspod.go:106-157 | after every single call only wanted weights have changed, only wanted records are added, and only unwanted records of managed lines are gone, once all wanted ones exist |
| `DnsPod.NeverEmpty` | internal/dnsctl/dnspod.go:143-155 | that condition keeps the last managed address |
| `DnsPod.LineNeverEmpty` | internal/dnsctl/dnspod.go:143-155 | and on each line that wants an address, the last one of that line |
| `DnsPod.CarefulKeepsOthers` | internal/dnsctl/dnspod.go:143-155 | nor touches, adds or removes a record of another type, or of a line that is none of the five |
| `DnsPod.CollectWanted` | internal/dnsctl/dnspod.go:82-94 | exactly the entries in rotation with an address, keyed by the provider's line name, each with the weight of an entry that asks for it |
| `DnsPod.WantedIsTheRotation` | internal/dnsctl/dnspod.go:82-94 | for a built plan an address is wanted on a line exactly when a node in rotation there has it, with the weight of such a node |
| `DnsPod.Ensure` | internal/dnsctl/dnspod.go:119-141 | a present record is left alone if the provider keeps no weights or has the right one |
| `DnsPod.RemoveExtra` | internal/dnsctl/dnspod.go:143-155 | only unwanted records of managed lines go |
| `DnsPod.DoneExactlyWhenSparesAreRight` | internal/dnsctl/dnspod.go:111-155 | which of the records alike spoil a completed run |
| `DnsPod.IndexOfListing` | internal/dnsctl/dnspod.go:111-117 | indexing a listing keeps exactly one of the records for each line and address, and misses none |
| `DnsPod.ATwinIsLeftBehind` | internal/dnsctl/dnspod.go:111-117 | a concrete zone in which a stale record stays, in whichever order it is listed |

## Left out

- Requests, certificates, tunnels, the administration interface of the web server, the console, events, audit and alert texts, and sync status texts: they decide nothing that is proved here.
- Signature computation, token verification and country look-up: whether a request upholds what a rule asks, in the rule's own fields, is a parameter.
- Addresses of clients and of entries are compared by a parameter with the laws stated in `Model.AddressLaws`; `RenderProof.RenderedListDecides` is about lists without IPv4 addresses in IPv6 notation, for which those laws promise nothing good, and about path comparisons without wildcards; the exact conditions are rows of their own.
- Checks of the global policies: whether they have a problem is a parameter of `RenderProof.Compile`.
- Regular expressions, globs, address parsing and range membership: uninterpreted, with the assumptions on literals and anchors stated in `Patterns`; case folding covers ASCII.
- The Cloudflare load balancing adapter, the paging of record lists and the provider's own retries: listings are complete and in any order.
- Weight updates that are pushed first and stored later: a sync with given weights is in the step system, but freshness is stated for syncs of the stored state.
- The repeated binding of one domain in a rule: it is rendered twice, as in the source, but that a rate limit is then charged twice per request is not stated.
- Hosts that overlap by wildcards are decided by the first in domain order; nothing is said about the server's own choice of certificates.
- Fields the store derives from others, such as whether a secret is set, and letter case of JSON keys.
- Direct edits of live rows between deploys.
- A failing write of a retry's result row, backoff times, and the rows of two jobs of one deploy at once: each job's own last rows are what is stated.
- Deploy.CommitLandsExactlyWhenClean: merged ids that coincide, which validation rejects for routes and for rules in effect, but not for rules switched off or for the two policies.
- Redelivery.DeployAndRetry: what other goroutines do is part of its retry's wait and attempts only; the deploy before it is one step.
- A master restart, which forgets what the monitor believed and what it had still to write.
- The records kept for charts (processor series, blocked requests per hour) and trimming them.
- RateLimit.Limiter.Allow: the instant is taken with the lock held, and delays have no upper limit, where the source reads the clock just before and counts nanoseconds in 64 bits.
- Replay.ReplayCache.Admit: the same for the clock; the counter of scanned entries is not modelled.
- Health.Monitor.ObserveAt: counters of connections, routes, rules and requests of a sample are not modelled; processor and memory load decide the status.
- Health.SilentNodeGoesDownInWindow: ticks are one interval apart and the timing settings do not change in between.
- NodeIntent.NodeRow.Toggle: whether the provider followed is not part of the row.
- CloudflareDns.Collapse: the lines are compared by their nodes and weights as a multiset, not by the text made of them.
