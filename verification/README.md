# Verified model of the VNGCloud load balancer controller

A Dafny model of the hard parts of the controller, in three pieces.

**The global load balancer reconciler** (`internal/usecase/glbc_uc`). A configuration asks for pools,
member groups, members and listeners on a load balancer in the cloud, and its status records what
the controller created. `World` is the cloud, the status, and the copy of the status that a pass
reads when it starts; that copy does not change during the pass, because status patches work on a
fresh object (`internal/repository/k8s_repo/k8s_repo.go`, lines 155 to 195). `Act` is one write, the
start of a pass, or an edit by somebody else, and `Allowed` is the ownership discipline. The class
`Cloud` is what the code talks to: each write may fail, before or after it took effect, each read may
fail, and ids and listing orders are the cloud's choice; a ghost counter `faults` counts the failures
that are not of the caller's making. The methods follow the code step by step. Each is proved to take
only allowed acts whatever fails, so that the theorems about all runs of allowed acts (`Safety`) hold
of the code; each states the exact state that success leaves; and each fails only with a fault or for
a named reason, so that a pass without faults is proved to do its work. `Quiescence` shows that two
undisturbed passes reach a state in which later passes send nothing. `Recovery` shows that any history
leaves everything in order, passes cut short anywhere included, and that from there three passes
without faults come to rest. `calls` counts writes sent, `lapses` the failures that can leave something
created off the record, and `broken` the new load balancers that were reported in error.

Where methods are proved against a specification function, lemmas say what that function gives in
terms of record, spec and cloud alone: `SweptListenersExactly`, `SweptPoolsExactly`, `DeletedExactlyWhen`,
`NextMembersAre`, `PoolWantedIs`, `AdoptedIs`. `Quiescence.RestServes` says what a pass that has come to
rest serves.

**The expiring cache and the reads through it** (`internal/repository/vngcloud_repo`). A bounded map
with eviction, two nested read-through caches over an API that does not change, and a tag cache over
one that does.

**The Ingress compiler** (`internal/usecase/ingress_uc`) with the name generator, the annotation
parser and the listener access list it rests on. `Routes` says which policies each listener is to
have; the compiler is proved against it, and the lemmas show that no route is lost, duplicated, put
on a listener that was not built, or pointed at a missing pool. Library sorting is a method that
promises some ordered permutation and no more, so nothing depends on stability.

| files | content |
|---|---|
| `GlbTypes`, `Text`, `Sorting` | entities, strings, orders |
| `Equality`, `Members`, `Diffs` | order-independent equality, member merge, update requests |
| `Protocol`, `Safety`, `Cloud` | acts and runs, what every run keeps, the cloud as an object |
| `DeleteListener`, `DeletePool`, `DeleteLb` | ownership checks, sweeps, teardown, delete pass |
| `Growth`, `StatusRecord`, `DeployPoolMember`, `DeployPool`, `PoolPhase`, `DeployListener`, `ListenerPhase`, `DeployLb`, `DeployPass` | the deploy pass from the inside out |
| `Quiescence`, `Recovery`, `Leftovers` | fixed points, how they are reached, and what a pass forgets |
| `TtlCache`, `CachedReads` | the cache and the reads through it |
| `Names`, `Annotations`, `Policies`, `Positions`, `IngressPools`, `IngressCompiler`, `IngressOutput`, `IngressDeterminism` | the Ingress compiler |

`dafny verify dfyconfig.toml` checks everything.

## Where the code differs from what one would expect

Each of these is proved, with the exact condition where there is one.

- A member the configuration did not create is kept by one pass, which records it, and dropped by the
  next. The comment at `deploy_pool_member.go` line 260 says that such members are never cleaned up.
  (`Members.TwoPassesReachTheSpec`)
- A change of weight, role, subnet or monitor port does not reach a member that is already live.
  (`Members.RealisedExactlyWhen`, `Members.ChangedWeightIsIgnored`)
- A traffic dial that differs from the spec is re-sent on every pass, never corrected.
  (`DeployPoolMember.DialNeverConverges`, `Leftovers.PassesResend`, `Quiescence.StillDialsAgree`)
- Listener headers that contain a comma, or a list of one empty name, are updated on every pass.
  (`Diffs.ListenerDiffCloses`)
- A pool whose health protocol is none of TCP, HTTP and HTTPS can need two updates.
  (`Diffs.PoolDiffCloses`, `Diffs.PoolDiffClosesInTwo`)
- A listener dropped from the spec while its pool stays is neither deleted nor remembered.
  (`Leftovers.ForgottenExactlyWhen`, `Leftovers.ForgottenExample`)
- A spec pool without groups that no listener uses is deleted by every other pass and created again by
  the ones between. (`Leftovers.EmptyPoolStaysExactlyWhen`, `Leftovers.EmptyPoolFlickers`)
- A delete pass can take a member that is not on record: pools are checked by group name only, so the
  member goes with its group when the pool is used by no listener, or is trimmed because somebody
  else's group is in it. (`DeleteLb.MemberLostExactlyWhen`, `DeleteLb.UnrecordedMemberLost`,
  `DeleteLb.UnrecordedMemberTrimmed`)
- A live header that is listed twice can hide one that is missing; no update is sent then.
  (`Diffs.HeadersComparedExactlyWhen`, `Diffs.RepeatedHeaderHidesAnother`)
- Without a name in the spec, a load balancer whose id was not recorded is not found again: the next
  pass creates one more. (`DeployPass.PassWithoutRecord`, `DeployPass.NamelessExample`)
- A listener or pool that is to go and is on record twice makes the second deletion fail, and the pass
  with it; an id listed twice that is not to go does no harm. The API server keys both lists by id
  (`api/v1alpha1/globalloadbalancerconfig_types.go`, lines 328 to 340), so no stored record is of that
  kind. (`DeleteListener.DeleteRedundantListeners`, `DeletePool.DeleteRedundantPools`,
  `DeleteLb.RecordedTwiceExample`, `DeleteLb.DistinctSweepsOnce`)
- A configuration whose recorded load balancer is gone never does anything again unless the spec names
  another by id. (`Recovery.MissingStays`)
- A listener whose protocol differs from the spec's keeps every pass from its end.
  (`Recovery.EndsExactlyWhen`)
- The slice comparisons are sound exactly when the left side lists nothing twice.
  (`Equality.SlicesEqualExactlyWhenDistinct`)
- Cache eviction does not end when the bound is 1 and the only live key is put again, and putting again
  under a key of a full map drops another entry. (`TtlCaches.EvictionNeverEnds`, `TtlCaches.TtlCache.Put`)
- Services whose namespace, dash and name take 35 characters or more can share a pool name, and then
  the later ones are served by the first one's pool. (`Names.UniquelyNamedExactlyWhen`,
  `IngressOutput.ServedRightExactlyWhen`, `IngressOutput.SharedPoolExample`)
- A long path without a host can come before a short host name with a short path.
  (`Positions.HostFirstExactlyWhen`, `Positions.LongPathBeatsHost`)
- Two subnets share a cache key when a slash in an id lets it be cut in two ways.
  (`CachedReads.UniquelyKeyedExactlyWhen`)
- A prefix path is a plain string prefix: `/foo` selects `/foobar`. (`Policies.WholeElementsExactlyWhen`)

## Model

| member | source | states |
|---|---|---|
| `DeployPass.Reconcile` | internal/usecase/glbc_uc/deploy_lb.go:55-102 | Any sequence of deploy, migrate and delete passes, each cut short by failing calls anywhere and with outside edits in between, is in the log pass by pass, is one run of allowed acts and therefore safe: no dangling listener at any step, names and ports unique, foreign pools, groups, listeners and whole load balancers untouched, only covered load balancers removed, deletions only from a load balancer that is being left or that carries the whole spec |
| `Safety.RunIsSafe` | internal/usecase/glbc_uc/deploy_lb.go:55-102 | Every run of allowed acts has all nine safety properties, at every state and for every deletion |
| `Safety.NoDanglingListener` | internal/usecase/glbc_uc/deploy_listener.go:187-207 | At every step of every run each listener has no pool or a pool that exists |
| `Safety.StepKeepsIntegrity` | internal/usecase/glbc_uc/delete_pool.go:33-77 | No single act breaks referential integrity: listeners are pointed at live pools, and a pool in use is not deleted |
| `Safety.SoundStays` | internal/usecase/glbc_uc/delete_pool.go:33-77 | The same for each load balancer by itself, from any state of a run on |
| `Safety.CreatedAtMostOnce` | internal/usecase/glbc_uc/deploy_pool.go:23-91 | With distinct names and ports in every spec, pool names, group names and listener ports stay unique over any number of interrupted passes |
| `Safety.StepKeepsUnique` | internal/usecase/glbc_uc/deploy_listener.go:16-64 | No single act makes a second pool, group or listener of the same name or port |
| `Safety.ForeignGroupSurvives` | internal/usecase/glbc_uc/delete_pool.go:103-153 | A group whose name no spec ever lists for its pool is there unchanged, and unrecorded, after any run |
| `Safety.StepKeepsForeignGroup` | internal/usecase/glbc_uc/deploy_pool_member.go:46-69 | No single act deletes, changes or records such a group |
| `Safety.ForeignListenerSurvives` | internal/usecase/glbc_uc/delete_listener.go:14-68 | A listener on a port no spec ever lists is never changed, recorded or deleted |
| `Safety.ForeignPoolSurvives` | internal/usecase/glbc_uc/delete_pool.go:14-98 | A pool whose name no spec ever lists is never changed, recorded or deleted, whatever it holds |
| `Safety.OthersLbSurvives` | internal/usecase/glbc_uc/deploy_lb.go:107-150 | A load balancer that is neither on record nor given by any spec, by id or by name, and was not created in a pass, is unchanged after any run |
| `Safety.StepKeepsOthersLb` | internal/usecase/glbc_uc/deploy_lb.go:107-150 | No single act writes to such a load balancer or records it |
| `Safety.NamedLbCreatedAtMostOnce` | internal/usecase/glbc_uc/deploy_lb.go:131-150 | However passes are interrupted, no second load balancer of a name that is not empty comes about |
| `Safety.WholeDeleteIsCovered` | internal/usecase/glbc_uc/delete_lb.go:28-82 | Whenever a whole load balancer is removed, every listener, pool, group and member address on it at that moment is on record, or it was created in the same pass |
| `Safety.DeployedOnce` | internal/usecase/glbc_uc/deploy_lb.go:73-89 | If a pass counts as deployed on a load balancer, there is a moment in that pass at which every pool, group and listener of its spec was live on it |
| `Safety.DeletesOnlyAfterDeploy` | internal/usecase/glbc_uc/deploy_pool.go:17-47 | Every deletion of a listener, pool or group is from the recorded load balancer in a delete or migrate pass, or comes after such a moment on the very load balancer it deletes from |
| `Protocol.OwnedGroups` | internal/usecase/glbc_uc/delete_listener.go:121-128 | The ownership map has exactly the recorded group names as keys |
| `Protocol.OwnedGroupsAre` | internal/usecase/glbc_uc/delete_listener.go:121-128 | A group name owns exactly the addresses of its last record |
| `Protocol.PoolCoveredExactlyWhen` | internal/usecase/glbc_uc/delete_listener.go:117-152 | A pool is ours exactly when it is on record and, for each live group, the last record of that name lists every live address and port |
| `Protocol.CoveredExactlyWhen` | internal/usecase/glbc_uc/delete_lb.go:87-184 | A load balancer is covered exactly when each listener has a record and each pool is ours in that sense |
| `CloudApi.Cloud.Try` | internal/repository/k8s_repo/k8s_repo.go:155-195 | One write: on success it was possible and is applied; on failure the state is as before or as if it had been applied, and a fault is counted unless the write was impossible |
| `Quiescence.TwoPasses` | internal/usecase/glbc_uc/deploy_lb.go:55-102 | Two passes over one fit spec on a settled load balancer: if no call fails both are in the log and run to their end, and whenever both do, nothing is left to do |
| `Quiescence.TwoPassesSettle` | internal/usecase/glbc_uc/deploy_pool_member.go:14-128 | The same as a statement about the states of the two passes, member groups and traffic dials included |
| `Quiescence.IdlePasses` | internal/usecase/glbc_uc/deploy_lb.go:55-102 | From then on any number of passes, all in the log, sends no create, update, patch, delete or status call and leaves cloud and status as they are, even if reads fail |
| `Quiescence.FirstPass` | internal/usecase/glbc_uc/deploy_pool_member.go:46-72 | After one pass the whole spec stands, is recorded as it stands, and each pool is one update away from agreeing |
| `Quiescence.SecondPass` | internal/usecase/glbc_uc/deploy_pool_member.go:205-240 | A pass from a built and recorded state reaches exactly the spec: pool fields, dials and member addresses |
| `Quiescence.ReachedIsStill` | internal/usecase/glbc_uc/deploy_lb.go:73-101 | A built state that has reached the spec gives no phase anything to do, the sweep and the final status write included |
| `Quiescence.SweepKeepsPool` | internal/usecase/glbc_uc/delete_pool.go:50-98 | The sweep keeps every pool of a fit spec and takes only groups the spec does not list |
| `Quiescence.BuiltIsRecorded` | internal/usecase/glbc_uc/deploy_pool_member.go:46-72 | A record equal to what was built in any order names every live member of the spec's groups |
| `Quiescence.PassAgain` | internal/usecase/glbc_uc/deploy_lb.go:55-102 | The second of two passes: it runs to its end unless a call fails or a listener dangled, and leaves nothing to do |
| `Quiescence.StillDialsAgree` | internal/usecase/glbc_uc/deploy_pool_member.go:182-202 | Where nothing is left to do every traffic dial is the one the spec asks for |
| `Quiescence.RestServes` | internal/usecase/glbc_uc/deploy_lb.go:73-101 | At rest every pool, group, member and listener of the spec is live as specified: addresses, dial, every field that is set, and each listener on its port and pointing at the pool of its name |
| `Quiescence.DialsOffExactlyWhen` | internal/usecase/glbc_uc/deploy_pool_member.go:182-190 | Some group will be re-sent for its dial exactly when not all dials agree |
| `Quiescence.PassKeepsDialsOff` | internal/usecase/glbc_uc/deploy_pool_member.go:183-190 | A dial that is off before a pass is off after it |
| `Recovery.AnyHistory` | internal/usecase/glbc_uc/deploy_lb.go:55-102 | Any history of deploy, migrate and delete passes over regular specs, all of them in the log, with edits by others between them and calls failing anywhere, leaves names, ports, addresses and records unique and no listener dangling |
| `Recovery.Recover` | internal/usecase/glbc_uc/deploy_lb.go:55-150 | From a state in order, as any history leaves it, three passes over a fit spec are in the log and leave nothing to do, or a call has failed in them, provided that at their start nothing is in the way of that spec and its load balancer exists; moving, adopting and creating are included |
| `Recovery.ThreePasses` | internal/usecase/glbc_uc/deploy_lb.go:55-150 | The same from any recoverable state, which is what passes cut short leave |
| `Recovery.ManyPasses` | internal/usecase/glbc_uc/deploy_lb.go:55-150 | Any number of passes over a spec, all in the log and cut short anywhere, leave a recoverable state recoverable |
| `Recovery.RecoverableExactlyWhen` | internal/usecase/glbc_uc/deploy_lb.go:107-150 | In order, a state is recoverable exactly when the spec is fit, nothing is in its way, and the load balancers on record and in the spec exist |
| `Recovery.OnePass` | internal/usecase/glbc_uc/deploy_lb.go:55-150 | Whatever fails in it a pass leaves the state recoverable, and if nothing fails the configuration is recorded on an existing load balancer that the spec does not leave |
| `Recovery.AnyRound` | internal/usecase/glbc_uc/deploy_lb.go:55-102 | A pass of any kind, in the log, with any edit before it, leaves names, ports, addresses and records unique and no listener dangling, however far it gets |
| `Recovery.OrderStays` | internal/usecase/glbc_uc/deploy_lb.go:55-102 | The same at every single step of a pass |
| `Recovery.StepKeepsOrder` | internal/usecase/glbc_uc/status.go:13-62 | No single act repeats a name, port, member address or record |
| `Recovery.GoodStays` | internal/usecase/glbc_uc/deploy_lb.go:107-150 | At every step of a deploy pass, no load balancer it may choose is at odds with the spec, and the one on record exists |
| `Recovery.StepKeepsSuited` | internal/usecase/glbc_uc/deploy_pool_member.go:136-190 | No single act brings in a listener of another protocol or a group of another dial than the spec asks for |
| `Recovery.StepKeepsHomed` | internal/usecase/glbc_uc/deploy_lb.go:174-185 | No single act of a deploy pass leaves an id on record whose load balancer is gone |
| `Recovery.EarlyIsHome` | internal/usecase/glbc_uc/deploy_lb.go:107-150 | A pass that ended early by moving or adopting has recorded an existing load balancer that the spec does not leave |
| `Recovery.EndsExactlyWhen` | internal/usecase/glbc_uc/deploy_listener.go:66-71 | On such a load balancer a pass, which is in the log, runs to its end through all phases exactly when no listener on a port of the spec has another protocol, unless a call fails |
| `Recovery.MissingStays` | internal/usecase/glbc_uc/deploy_lb.go:117-119 | If the load balancer on record is gone and the spec gives no other, any number of passes, all in the log, send nothing and change nothing |
| `Leftovers.ForgottenExactlyWhen` | internal/usecase/glbc_uc/delete_listener.go:88-94 | A recorded listener on a port the spec does not list is left live and off the record exactly when, at the start of the pass, its pool is one the spec still names or is not ours down to each member; otherwise it is deleted |
| `Leftovers.PassForgets` | internal/usecase/glbc_uc/deploy_lb.go:73-101 | The same of a whole pass, which runs to its end if no call fails |
| `Leftovers.UnlistedGroupStaysExactlyWhen` | internal/usecase/glbc_uc/delete_pool.go:50-150 | A live group that the spec does not list, in a spec pool that lists some group, is gone after the pass exactly when its name was on record for the pool; otherwise it is unchanged |
| `Leftovers.UnlistedPoolStaysExactlyWhen` | internal/usecase/glbc_uc/delete_pool.go:50-98 | A live pool that the spec does not list is there after the pass exactly when it was not on record, a remaining listener uses it, or it holds a group whose name was not on record |
| `Leftovers.ForgottenExample` | internal/usecase/glbc_uc/deploy_lb.go:98 | A literal configuration whose pass forgets its listener |
| `Leftovers.EmptyPoolStaysExactlyWhen` | internal/usecase/glbc_uc/delete_pool.go:77-134 | A spec pool without groups survives the pass exactly when its id was not on record, the spec or a listener off the spec's ports points at it, or it holds an unrecorded group at the start |
| `Leftovers.StandingIsSwept` | internal/usecase/glbc_uc/delete_pool.go:77-134 | A recorded pool that nobody needs is gone after the pass |
| `Leftovers.AbsentIsCreated` | internal/usecase/glbc_uc/deploy_pool.go:59-91 | A pool without groups that is not there is created, recorded and left by the pass |
| `Leftovers.EmptyPoolFlickers` | internal/usecase/glbc_uc/delete_pool.go:77-134 | Of passes in a row every other one deletes such a pool and every other one creates it |
| `Leftovers.PassesFlicker` | internal/usecase/glbc_uc/deploy_lb.go:55-102 | The same of any number of whole passes, given with their states and passages: as long as each id given to the pool is new to the record, they run to their end if no call fails, and the pool stands or is absent by turns |
| `Leftovers.FlickerExample` | internal/usecase/glbc_uc/delete_pool.go:77-134 | A literal configuration with a pool on record, whose pass takes away the pool that the spec lists |
| `Leftovers.PassSweeps` | internal/usecase/glbc_uc/delete_pool.go:77-134 | A whole pass that finds such a pool standing takes it away |
| `Leftovers.PassesResend` | internal/usecase/glbc_uc/deploy_pool_member.go:182-202 | Of any number of passes over a spec that asks for another dial than a live group has, each sends a write and leaves the dial off; without failing calls all run to their end |
| `Leftovers.PassResends` | internal/usecase/glbc_uc/deploy_pool_member.go:182-202 | The same of one pass |
| `Leftovers.PassKeepsSane` | internal/usecase/glbc_uc/deploy_lb.go:55-102 | After a pass names, ports and records are still unique, no listener dangles and protocols match |
| `DeployPass.Deploy` | internal/usecase/glbc_uc/deploy_lb.go:55-102 | A pass that migrates, adopts or misses its load balancer ends early and has done just that; every other runs to its end whenever no call fails, unless the state is not fit to run on (protocol mismatch, dangling listener, an id on record twice). One that ends well went through all phases in order on a load balancer that is on record; if none was on record it is a new one. There is one load balancer more, and it is on record, exactly when none was on record or given, by id or by a name that is taken; at most one if a call failed. However the pass ends, what has come on the load balancer of the record is on record, unless a creation or a status patch failed. A pass with a dial off sends a write, and one with nothing to do sends nothing |
| `DeployPass.RunPass` | internal/usecase/glbc_uc/deploy_lb.go:55-102 | The same from the state in which the pass has begun |
| `DeployPass.RunOn` | internal/usecase/glbc_uc/deploy_lb.go:73-101 | The rest of a pass that has its load balancer |
| `DeployPass.PassWithoutRecord` | internal/usecase/glbc_uc/deploy_lb.go:131-150 | With no load balancer on record and no failing call, a pass creates one exactly when the spec gives no id and no name that is taken, and records it |
| `DeployPass.NamelessExample` | internal/usecase/glbc_uc/deploy_lb.go:131-150 | A nameless load balancer whose id was lost: the next pass leaves two |
| `DeployPass.DeployOn` | internal/usecase/glbc_uc/deploy_lb.go:73-101 | Pool phase, listener phase, sweep and final write, with the exact state after each; they succeed whenever no call fails and the load balancer is ready |
| `DeployPass.BuildAll` | internal/usecase/glbc_uc/deploy_lb.go:73-80 | Both building phases; they fail only with a failing call or on a protocol mismatch, and whatever they have created is on record unless a creation or a status patch failed |
| `DeployPass.Finish` | internal/usecase/glbc_uc/deploy_lb.go:82-101 | The sweep and the final write keep that, and succeed whenever no call fails and the load balancer is ready |
| `DeployPass.WriteRecords` | internal/usecase/glbc_uc/deploy_lb.go:91-101 | The final write records what was built, or is skipped when the record already equals it up to order; it fails only if a call does |
| `DeployPass.Sweep` | internal/usecase/glbc_uc/deploy_lb.go:82-89 | The exact load balancer after both redundant-resource deletions (described by `DeleteListener.SweptListenersExactly` and `DeletePool.SweptPoolsExactly`); nothing is sent when there is nothing to sweep |
| `DeployLb.DeployLoadBalancer` | internal/usecase/glbc_uc/deploy_lb.go:107-150 | Which load balancer the pass works on: the one on record, sized, or a new one, on record now; without a failing call the pass ends here exactly when it migrates, adopts or misses its load balancer, with the exact state each leaves; one load balancer more exactly when one had to be created |
| `DeployLb.CreateLoadBalancer` | internal/usecase/glbc_uc/deploy_lb.go:152-193 | A new load balancer, never an existing one and never a second, with the first pool and listener of the spec, recorded, and with the created lists untouched; it fails only if a call does; if the new one is reported in error, neither it nor its id is left unless a further call failed |
| `DeployLb.BringUp` | internal/usecase/glbc_uc/deploy_lb.go:169-192 | The new id is noted and the load balancer sized; no other comes or goes; it fails only if a call does; one reported in error is forgotten and gone unless a further call failed |
| `DeployLb.CreateCall` | internal/usecase/glbc_uc/deploy_lb.go:152-167 | The create call, made only without a recorded load balancer and without one of that name |
| `DeployLb.Discard` | internal/usecase/glbc_uc/deploy_lb.go:174-185 | A load balancer born in this pass that came up in error is forgotten and deleted, and nothing else is, unless a call fails |
| `DeployLb.BuildContent` | internal/usecase/glbc_uc/deploy_lb.go:287-350 | The create request holds the name, the package, and one pool and one listener, the first of the spec, if the spec has both; otherwise neither |
| `DeployLb.TeardownOn` | internal/usecase/glbc_uc/deploy_lb.go:215-232 | Migration leaves the old load balancer in exactly its teardown state and clears the record; one that is gone is no obstacle |
| `DeployLb.Migrate` | internal/usecase/glbc_uc/deploy_lb.go:196-207 | Without a failing call the old load balancer is in its teardown state and the new one adopted, if the old can be cleared and the new exists |
| `DeployLb.EnsureExist` | internal/usecase/glbc_uc/deploy_lb.go:235-285 | Success means the load balancer exists, is the recorded one and has the wanted package; failure means a failing call or a missing load balancer, which causes no call |
| `DeployLb.AdoptedIs` | internal/usecase/glbc_uc/deploy_lb.go:235-285 | Field by field: the id is on record, the package is the one the spec sets or as it was, and everything else on every load balancer and in the record is unchanged |
| `DeployLb.MovedIs` | internal/usecase/glbc_uc/deploy_lb.go:107-130 | After a move from a load balancer that can be cleared the record names the new one and lists nothing, the new one has the package the spec sets, the old one has the listeners and pools a teardown leaves, and no other is touched |
| `DeployLb.MovedFromNothingIs` | internal/usecase/glbc_uc/deploy_lb.go:215-232 | If the old one was gone the given one is adopted, the lists on record stay, and nothing else changes |
| `DeployLb.EndedEarlyIs` | internal/usecase/glbc_uc/deploy_lb.go:107-150 | Which load balancer an early end leaves on record: the one the spec gives, by id or else by name; after a move from one that can be cleared, with empty lists |
| `DeployLb.ResizeTo` | internal/usecase/glbc_uc/deploy_lb.go:265-285 | The load balancer has the wanted package and is otherwise as it was; no call when it had |
| `DeployLb.StatusSetLb` | internal/usecase/glbc_uc/status.go:64-77 | The load balancer id is recorded without touching the created lists |
| `DeployLb.StatusClearCreated` | internal/usecase/glbc_uc/status.go:151-160 | Both created lists are emptied |
| `PoolPhase.DeployPools` | internal/usecase/glbc_uc/deploy_pool.go:23-47 | Every spec pool is tried: it ends up created, live and recorded for its spec, or by name among the failed, each of which had a failing call of its own; every pool that came is among the created or has the name of a failed one, and is on record unless a creation or a status patch failed; on full success each pool is recorded exactly and one step on |
| `PoolPhase.DeployNext` | internal/usecase/glbc_uc/deploy_pool.go:31-42 | One pool more, whatever became of the ones before; it fails only with a failing call of its own |
| `PoolPhase.EachRecordedStep` | internal/usecase/glbc_uc/status.go:40-62 | A later pool, deployed or not, leaves the records of the earlier ones |
| `DeployPool.DeployPool` | internal/usecase/glbc_uc/deploy_pool.go:49-121 | Only pools of that name change or appear, only their records too; success returns the record of the live pool; it fails only if a call does; a settled pool causes no call |
| `DeployPool.StartPool` | internal/usecase/glbc_uc/deploy_pool.go:59-79 | The pool is created and at once recorded, with no groups yet |
| `DeployPool.CreateNewPool` | internal/usecase/glbc_uc/deploy_pool.go:59-91 | A new id, a pool with the spec's groups, recorded at once and then with all its live members; what has come is on record however the call ends, unless the creation or a status patch failed |
| `DeployPool.EnsureLivePool` | internal/usecase/glbc_uc/deploy_pool.go:93-120 | An existing pool is brought to the wanted fields and its groups one step on |
| `DeployPool.UpdateLivePool` | internal/usecase/glbc_uc/deploy_pool.go:94-109 | The pool becomes what the update request asks for, or is left alone when it agrees |
| `DeployPool.NewPoolStays` | internal/usecase/glbc_uc/deploy_pool.go:80-84 | Deploying members right after creation leaves the new groups as created |
| `ListenerPhase.DeployListeners` | internal/usecase/glbc_uc/deploy_listener.go:16-31 | All listeners in order up to the first failure, which is a failing call or a protocol mismatch; those handled before it are live, exact and on record, and nothing that came is off the record unless a creation or a status patch failed; on success each is live on its port with its protocol, points at its pool, and agrees with the spec if its headers can |
| `DeployListener.DeployListener` | internal/usecase/glbc_uc/deploy_listener.go:33-96 | Only listeners on that port change or appear and pools do not; a wrong protocol is an error; an agreeing listener causes no call |
| `DeployListener.CreateNewListener` | internal/usecase/glbc_uc/deploy_listener.go:44-64 | A created listener on the spec's port, on record under its id, with ports still unique; on record however the call ends, unless the creation or the status patch failed |
| `DeployListener.UpdateLiveListener` | internal/usecase/glbc_uc/deploy_listener.go:72-89 | The listener becomes what the update request of `Diffs.BuildListenerUpdate` asks for and is on record; an agreeing one causes no call |
| `DeployListener.FoundPoolExists` | internal/usecase/glbc_uc/deploy_listener.go:187-207 | The pool a listener is pointed at is a deployed one or none |
| `DeployPoolMember.DeployPoolMembers` | internal/usecase/glbc_uc/deploy_pool_member.go:14-73 | Every spec group is live, and recorded with every member it holds; groups not listed are untouched; members that come are as `Members.NewMemberIsAsSpecified` and `Diffs.NewGroupIs` say; it fails only if a call does; settled groups cause no call |
| `DeployPoolMember.PatchMembers` | internal/usecase/glbc_uc/deploy_pool_member.go:14-34 | The groups after the bulk patch, exactly |
| `DeployPoolMember.BuildPatch` | internal/usecase/glbc_uc/deploy_pool_member.go:77-128 | The loop builds the patch of the specification function |
| `DeployPoolMember.PatchSteps` | internal/usecase/glbc_uc/deploy_pool_member.go:77-128 | Applying the patch moves every listed group one step and creates the missing ones; nothing else changes |
| `DeployPoolMember.PatchedHolds` | internal/usecase/glbc_uc/deploy_pool_member.go:105-121 | After the patch every group of the spec is there, so that the read-back finds it |
| `DeployPoolMember.PatchStaysInSpec` | internal/usecase/glbc_uc/deploy_pool_member.go:77-128 | Whatever the spec looks like, only listed groups are updated and only missing ones created |
| `DeployPoolMember.PatchUpdatesExactly` | internal/usecase/glbc_uc/deploy_pool_member.go:105-121 | A live group of a listed name gets exactly its own update |
| `DeployPoolMember.PatchIsEmpty` | internal/usecase/glbc_uc/deploy_pool_member.go:123-125 | No patch when every spec group is live and settled |
| `DeployPoolMember.NoUpdateExactlyWhen` | internal/usecase/glbc_uc/deploy_pool_member.go:182-202 | A group is left alone exactly when its dial agrees, every spec address is live, and every live address is wanted or foreign |
| `DeployPoolMember.DialNeverConverges` | internal/usecase/glbc_uc/deploy_pool_member.go:183-190 | The update for a group whose dial differs from the spec carries the live dial |
| `DeployPoolMember.UpdateForFits` | internal/usecase/glbc_uc/deploy_pool_member.go:182-240 | The update for a group keeps its dial and repeats no address that was not repeated |
| `DeployPoolMember.ReadBack` | internal/usecase/glbc_uc/deploy_pool_member.go:37-69 | The record lists the live spec groups in order with all their members; it fails only if a group is missing |
| `Members.MergePoolMembers` | internal/usecase/glbc_uc/deploy_pool_member.go:244-274 | Merged addresses are the spec's and the live ones not created here, none twice if none was live twice |
| `Members.MergedKeys` | internal/usecase/glbc_uc/deploy_pool_member.go:244-274 | The same for the merge function, for all inputs |
| `Members.MergedDistinct` | internal/usecase/glbc_uc/deploy_pool_member.go:266-271 | No address twice, however often the spec repeats one |
| `Members.MergedOrigin` | internal/usecase/glbc_uc/deploy_pool_member.go:249-271 | A merged member is a live one that stays or a spec member at a new address |
| `Members.NoRequestExactlyWhen` | internal/usecase/glbc_uc/deploy_pool_member.go:205-215 | No member list is sent exactly when every spec address is live and every live address is wanted or foreign |
| `Members.NextKeys` | internal/usecase/glbc_uc/deploy_pool_member.go:205-240 | The addresses after the update |
| `Members.NextMembersAre` | internal/usecase/glbc_uc/deploy_pool_member.go:205-240 | A member afterwards was live, at an address that is wanted or foreign, or is as specified, at an address that was not live |
| `Members.NewMemberIsAsSpecified` | internal/usecase/glbc_uc/deploy_pool_member.go:218-226 | With distinct spec addresses, a spec member at an address that was not live becomes a live member with its name, address, port, subnet and role, the set weight or 1, and the set monitor port or its own port |
| `Members.StayingMemberKeepsAll` | internal/usecase/glbc_uc/deploy_pool_member.go:249-271 | A live member at an address that is wanted or foreign stays with every field |
| `Members.TwoPassesReachTheSpec` | internal/usecase/glbc_uc/deploy_pool_member.go:46-72 | From any start two passes reach exactly the spec's addresses and the third sends nothing; a foreign member is kept by the first and dropped by the second |
| `Members.RealisedExactlyWhen` | internal/usecase/glbc_uc/deploy_pool_member.go:244-288 | Weights, roles, subnets and monitor ports of the spec, defaults as in `NewMemberIsAsSpecified`, are realised exactly when the members live at spec addresses already had them |
| `Members.ChangedWeightIsIgnored` | internal/usecase/glbc_uc/deploy_pool_member.go:249-271 | A concrete weight change that never reaches the live member |
| `Diffs.BuildListenerUpdate` | internal/usecase/glbc_uc/deploy_listener.go:145-244 | A request exactly when a field the spec sets differs, headers as the unordered comparison sees them. The patched listener keeps name, protocol and port, has every field the spec sets, keeps `allowedCidrs` and each timeout that the spec leaves unset, and keeps headers that agree |
| `Diffs.TargetPoolIs` | internal/usecase/glbc_uc/deploy_listener.go:187-207 | The pool id is that of the first deployed pool of the name, and empty without a name or such a pool |
| `Text.LowersCapitals` | internal/usecase/glbc_uc/deploy_listener.go:209-231 | Lower-casing turns exactly the capital letters into small ones |
| `Diffs.NewListenerIs` | internal/usecase/glbc_uc/deploy_listener.go:98-143 | A new listener has what the spec sets and the defaults for the rest, its headers joined, and its default pool by name |
| `Diffs.NewPoolIs` | internal/usecase/glbc_uc/deploy_pool.go:123-208 | A new pool has what the spec sets and the defaults for the rest, and the HTTP options of the spec only |
| `Diffs.NewGroupIs` | internal/usecase/glbc_uc/deploy_pool_member.go:127-163 | A new group has what the spec says, dial one hundred if unset, and its members as specified, in order |
| `Diffs.ListenerDiffCloses` | internal/usecase/glbc_uc/deploy_listener.go:209-239 | Nothing is left to update afterwards exactly when the headers agreed already or survive the comma encoding |
| `Diffs.HeadersRoundTripExactlyWhen` | internal/usecase/glbc_uc/deploy_listener.go:211-236 | Join and split give the headers back exactly when none holds a comma and the list is not one empty name |
| `Diffs.HeadersComparedExactlyWhen` | internal/usecase/glbc_uc/deploy_listener.go:209-231 | The header comparison is right for every spec exactly when the live list repeats no header |
| `Diffs.HeadersRealisedExactlyWhen` | internal/usecase/glbc_uc/deploy_listener.go:209-239 | After an update the listener has just the spec's headers exactly when it had them, or the comparison noticed and they survive the encoding |
| `Diffs.RepeatedHeaderHidesAnother` | internal/usecase/glbc_uc/deploy_listener.go:231 | Live headers `a,a` pass for the spec's `a` and `b` |
| `Diffs.BuildPoolUpdate` | internal/usecase/glbc_uc/deploy_pool.go:211-321 | A request exactly when something the spec sets differs; applied, it yields the wanted pool, which `PoolWantedIs` describes field by field |
| `Diffs.PoolWantedIs` | internal/usecase/glbc_uc/deploy_pool.go:211-321 | Thresholds, interval, timeout and algorithm are the set ones or as they were. Of the HTTP options: from HTTP(S) to HTTP(S) the set ones or as they were, from HTTP(S) to TCP none, from TCP to HTTP(S) just the spec's, otherwise as they were |
| `Diffs.PoolDisagreesIsChanged` | internal/usecase/glbc_uc/deploy_pool.go:317-320 | An update that is sent changes something |
| `Diffs.BuildHttpOptions` | internal/usecase/glbc_uc/deploy_pool.go:254-282 | The HTTP options when both sides speak HTTP or HTTPS |
| `Diffs.BuildThresholds` | internal/usecase/glbc_uc/deploy_pool.go:227-253 | Thresholds and protocol, with a flag that says whether anything changed |
| `Diffs.PoolDiffCloses` | internal/usecase/glbc_uc/deploy_pool.go:248-306 | One update settles a pool unless its monitor has another protocol, becomes HTTP or HTTPS, and carries an option the spec sets otherwise |
| `Diffs.PoolDiffClosesInTwo` | internal/usecase/glbc_uc/deploy_pool.go:211-321 | Two updates settle every pool |
| `Diffs.PoolAgreesIsFixed` | internal/usecase/glbc_uc/deploy_pool.go:317-320 | A settled pool is not rewritten |
| `Equality.SlicesEqualIsMultisetEquality` | internal/usecase/glbc_uc/status.go:97-107 | With a left side that lists nothing twice the helper is equality of multisets |
| `Equality.SlicesEqualExactlyWhenDistinct` | api/v1alpha1/nodesecuritygroup_types.go:147-157 | The helper is right for all right-hand sides exactly when the left side lists nothing twice |
| `Equality.CopyReplaced` | api/v1alpha1/nodesecuritygroup_types.go:147-157 | A left side with a repeated element is called equal to a list it does not rearrange |
| `Equality.GroupsEqualIsContentEquality` | api/v1alpha1/globalloadbalancerconfig_types.go:442-455 | Group lists compare as what they hold, order forgotten at both levels |
| `Equality.PoolsEqualIsContentEquality` | api/v1alpha1/globalloadbalancerconfig_types.go:412-455 | The three-level comparison of created pools is equality of what they hold, order forgotten |
| `Equality.NothingTwiceCarries` | internal/usecase/glbc_uc/status.go:110-146 | The comparison can be turned round |
| `Equality.PoolsEqualTransitive` | internal/usecase/glbc_uc/status.go:110-146 | The comparison is transitive |
| `StatusRecord.UpsertPool` | internal/usecase/glbc_uc/status.go:45-61 | The record is kept, overwritten in place or appended to, and is left alone exactly when it already says so |
| `StatusRecord.StatusUpdatePool` | internal/usecase/glbc_uc/status.go:40-62 | Afterwards the record has the pool with these groups; nothing is sent when it had |
| `StatusRecord.UpsertListener` | internal/usecase/glbc_uc/status.go:21-37 | The same for listeners |
| `StatusRecord.StatusAddListener` | internal/usecase/glbc_uc/status.go:13-38 | Afterwards the record has the listener; nothing is sent when it had |
| `DeleteListener.DeleteRedundantListeners` | internal/usecase/glbc_uc/delete_listener.go:14-68 | The exact listeners afterwards (described by `SweptListenersExactly`), although the live list is read once; without a failing call and a dangling listener it fails exactly when a listener that is to go is on record twice; nothing is sent if none is to go |
| `DeleteListener.SweptListenersExactly` | internal/usecase/glbc_uc/delete_listener.go:45-94 | Read off record and cloud: a live listener stays exactly when it is unrecorded, listed anew, or has a pool that is listed anew or is not ours; it stays unchanged |
| `DeleteListener.CanDeleteWholeListener` | internal/usecase/glbc_uc/delete_listener.go:81-152 | True exactly when there is no pool, or the pool is unwanted and ours down to each member |
| `DeleteListener.BuildOwnedGroups` | internal/usecase/glbc_uc/delete_listener.go:117-128 | The nested map of owned addresses |
| `DeleteListener.OwnsAll` | internal/usecase/glbc_uc/delete_listener.go:130-148 | True exactly when every live group and member is owned |
| `DeletePool.DeleteRedundantPools` | internal/usecase/glbc_uc/delete_pool.go:14-98 | The exact pools and groups afterwards (described by `SweptPoolsExactly`); without a failing call it fails exactly when a pool that is to go is on record twice |
| `DeletePool.SweptPoolsExactly` | internal/usecase/glbc_uc/delete_pool.go:77-153 | Read off record, new record and cloud: a live pool stays exactly when it is unrecorded, in use, or holds a group that is unrecorded or listed anew; a recorded one with such a group keeps exactly those groups, and every other one is unchanged |
| `DeletePool.SweptPoolsAreThere` | internal/usecase/glbc_uc/delete_pool.go:50-98 | The sweep brings no pool |
| `DeletePool.CanDeleteWholePool` | internal/usecase/glbc_uc/delete_pool.go:103-153 | True exactly when no live group is kept; otherwise the groups to remove, which are those recorded and not listed anew |
| `DeletePool.SweptStep` | internal/usecase/glbc_uc/delete_pool.go:50-96 | What handling one more candidate does, repeated candidates included |
| `DeletePool.TrimmedTwice` | internal/usecase/glbc_uc/delete_pool.go:136-150 | A trimmed pool has nothing redundant left and is not empty |
| `DeleteLb.Delete` | internal/usecase/glbc_uc/delete_lb.go:12-26 | Without failing calls and dangling listeners, a delete pass succeeds exactly when nothing that is to go is on record twice. After success the recorded load balancer is gone exactly when it was covered, or every listener was recorded and ours and every pool recorded without an unrecorded group; otherwise it is in its teardown state, and every other load balancer is unchanged |
| `DeleteLb.DistinctSweepsOnce` | api/v1alpha1/globalloadbalancerconfig_types.go:328-340 | A record with distinct ids, which is all the API server stores, has nothing that is to go twice |
| `DeleteLb.RecordedTwiceExample` | internal/usecase/glbc_uc/delete_listener.go:45-65 | A literal load balancer without dangling listeners and a record with a listener twice, which fails the condition every successful delete pass meets |
| `DeleteLb.DeleteLoadBalancer` | internal/usecase/glbc_uc/delete_lb.go:28-53 | The exact cloud afterwards (described by `DeletedExactlyWhen`) |
| `DeleteLb.DeletedExactlyWhen` | internal/usecase/glbc_uc/delete_lb.go:28-82 | The load balancer goes exactly when all on it is ours, and is torn down otherwise; all others stay as they are |
| `DeleteLb.DeleteWhenNotEmpty` | internal/usecase/glbc_uc/delete_lb.go:57-82 | Teardown, and the load balancer goes exactly when that empties it |
| `DeleteLb.CanDeleteWholeLoadBalancer` | internal/usecase/glbc_uc/delete_lb.go:87-184 | True exactly when everything on it is on record down to each member |
| `DeleteLb.IsLoadBalancerEmpty` | internal/usecase/glbc_uc/delete_lb.go:186-204 | True exactly when it has no listener and no pool |
| `DeleteLb.TeardownListeners` | internal/usecase/glbc_uc/delete_listener.go:45-65 | A listener survives exactly when it is unrecorded, or its pool is unrecorded or holds an unrecorded group or member; survivors are unchanged |
| `DeleteLb.TeardownPools` | internal/usecase/glbc_uc/delete_pool.go:50-98 | A pool survives exactly when it is unrecorded, used by a surviving listener, or holds an unrecorded group; in the last case it keeps exactly those groups |
| `DeleteLb.EmptiedExactlyWhen` | internal/usecase/glbc_uc/delete_lb.go:57-82 | The partial delete empties the load balancer exactly when every listener is recorded and ours and every pool is recorded and holds no unrecorded group |
| `DeleteLb.MemberLostExactlyWhen` | internal/usecase/glbc_uc/delete_pool.go:111-150 | A teardown takes an unrecorded member exactly when its pool and its group's name are recorded and the pool holds an unrecorded group or is used by no listener |
| `DeleteLb.DeletePassLosesMemberExactlyWhen` | internal/usecase/glbc_uc/delete_lb.go:28-82 | The whole delete pass takes it exactly then |
| `DeleteLb.UnrecordedMemberTrimmed` | internal/usecase/glbc_uc/delete_pool.go:136-150 | A member lost from a pool in use, which is trimmed because of somebody else's group |
| `DeleteLb.UnrecordedMemberLost` | internal/usecase/glbc_uc/delete_lb.go:68-80 | A delete pass can take down an unrecorded member of a pool no listener uses |
| `TtlCaches.TtlCache.Get` | internal/repository/vngcloud_repo/ttl_cache.go:68-78 | A hit is the last value put since the last invalidation, at most 1.4 lifetimes old |
| `TtlCaches.TtlCache.Put` | internal/repository/vngcloud_repo/ttl_cache.go:82-93 | The bound holds, other keys keep their value or go, an unexpired entry goes only from a full map without expired ones, and putting again under a key of a full map costs another entry |
| `TtlCaches.TtlCache.Invalidate` | internal/repository/vngcloud_repo/ttl_cache.go:96-100 | The key is forgotten |
| `TtlCaches.TtlCache.Evict` | internal/repository/vngcloud_repo/ttl_cache.go:105-121 | Eviction ends whenever the bound is above the floor, and leaves the exact size |
| `TtlCaches.TtlCache.DropExpired` | internal/repository/vngcloud_repo/ttl_cache.go:107-111 | Exactly the expired entries go |
| `TtlCaches.EvictionNeverEnds` | internal/repository/vngcloud_repo/ttl_cache.go:112-120 | With the bound at or below the floor no number of rounds gets under it |
| `TtlCaches.TwoPlacesSuffice` | internal/repository/vngcloud_repo/ttl_cache.go:112-120 | A bound of two or more is above the floor in every state |
| `CachedReads.ServerReads.GetSubnet` | internal/repository/vngcloud_repo/vngcloud_server.go:26-43 | The cached read answers what the API would, as long as no network id holds a slash |
| `CachedReads.ServerReads.GetSubnetCidr` | internal/repository/vngcloud_repo/vngcloud_server.go:103-112 | The same for the range of a subnet, a missing subnet being an error |
| `CachedReads.ServerReads.GetServerNetworkInfo` | internal/repository/vngcloud_repo/vngcloud_server.go:45-89 | Through both caches the answer is the API's own: zone, network and subnet of that server and the range of that subnet |
| `CachedReads.UniquelyKeyedExactlyWhen` | internal/repository/vngcloud_repo/subnet_cache.go:22-24 | A key belongs to one network and subnet exactly when neither id contains a slash |
| `CachedReads.SubnetKeysCollide` | internal/repository/vngcloud_repo/subnet_cache.go:22-24 | Two ids that do collide |
| `CachedReads.TagReads.ListTags` | internal/repository/vngcloud_repo/vngcloud_tags.go:36-51 | Tags as the cloud held them at one moment, at most 1.4 lifetimes ago and not before this process's last write; a miss reads through |
| `CachedReads.TagReads.WriteTags` | internal/repository/vngcloud_repo/vngcloud_tags.go:85-129 | After a write, failed or not, the resource is not remembered and others are |
| `CachedReads.TagReads.EditOutside` | internal/repository/vngcloud_repo/vngcloud_tags.go:36-51 | Edits by others keep the cache's promise: an answer is true of a recent moment |
| `CachedReads.TagValues` | internal/repository/vngcloud_repo/vngcloud_tags.go:61-73 | The tags that are present, in order |
| `CachedReads.PresentAre` | internal/repository/vngcloud_repo/vngcloud_tags.go:61-73 | Entry by entry a tag gives itself and an empty entry nothing, and lists add up |
| `CachedReads.ListTagsFrom` | internal/repository/vngcloud_repo/vngcloud_tags.go:76-83 | Reading the values of a rebuilt list gives them back |
| `Names.ValidateName` | pkg/utils/name_helper.go:109-116 | The replace loop is one clean-up of every character and a cut at fifty |
| `Names.PoolNameShape` | pkg/utils/name_helper.go:90-98 | Ten characters, the service part, the last dash, the port as far as it fits |
| `Names.PoolNameIs` | pkg/utils/name_helper.go:90-98 | Written out, where nothing is cut: `vks-`, hash, namespace, service and port, joined by dashes |
| `Names.PolicyNameIs` | pkg/utils/name_helper.go:101-107 | Written out: hash, whether TLS, the numbers of rule and path |
| `Names.ItoaIsDecimal` | pkg/utils/name_helper.go:90-98 | The digits of a port are its decimal digits |
| `Names.FittingNameIsUnique` | pkg/utils/name_helper.go:90-98 | Service and port can be recovered from the name when namespace, dash and service take at most 34 characters |
| `Names.UniquelyNamedExactlyWhen` | pkg/utils/name_helper.go:90-98 | A name is unique among all services and ports exactly then |
| `Names.DefaultPoolNameIsApart` | internal/domain/domain.go:60 | No generated name is the default pool's |
| `Names.PolicyNamesDiffer` | pkg/utils/name_helper.go:101-107 | The policies of one Ingress have different names |
| `Names.SmallIndicesFit` | pkg/utils/name_helper.go:101-107 | The cut at fifty cannot reach the indices of an Ingress with fewer than 10^15 rules and paths |
| `Annotations.SplitCommaSeparatedString` | pkg/annotations/parser.go:207-218 | The loop computes the trimmed, non-empty pieces |
| `Annotations.TrimSpaceReads` | pkg/annotations/parser.go:207-218 | An item between white space is read as itself |
| `Annotations.PaddedListReads` | pkg/annotations/parser.go:207-218 | However the items of a list are padded, and whatever blank pieces lie between them, they are read as they are |
| `Annotations.ListRoundTripsExactlyWhen` | pkg/annotations/parser.go:207-218 | Splitting a joined list gives it back exactly when every item is trimmed, not empty and free of commas |
| `Annotations.ListIsNormal` | pkg/annotations/parser.go:207-218 | Whatever was written, what is read is a fixed point of writing and reading |
| `Annotations.ParseStringMap` | pkg/annotations/parser.go:148-174 | The pairs of the pieces, the last of each key; one bad piece refuses all |
| `Annotations.ToMapIs` | pkg/annotations/parser.go:157-168 | Each key has the value of its last pair, and there is no other key |
| `Annotations.PairsRoundTripExactlyWhen` | pkg/annotations/parser.go:157-168 | Written pairs parse back exactly when keys are not empty and free of equals signs and each pair is a proper item |
| `Annotations.FromAnnotations` | internal/usecase/listeneracl/listeneracl.go:24-61 | Accepted exactly when every dropped range and the action are valid; a whitelist without an action drops the rest; the fields of the result are those annotations |
| `Annotations.AclReproducesItself` | internal/usecase/listeneracl/listeneracl.go:24-61 | The fields written back as annotations are accepted and give the same fields |
| `Sorting.SortSecurityGroupRules` | api/v1alpha1/nodesecuritygroup_types.go:264-280 | In place: a permutation in order of the five fields |
| `Sorting.RulesGoBy` | api/v1alpha1/nodesecuritygroup_types.go:264-280 | That order is by direction, protocol, range, first port and last port |
| `Sorting.StringLessExactlyWhen` | api/v1alpha1/nodesecuritygroup_types.go:264-280 | Strings are compared character by character, a proper prefix first |
| `Sorting.RulesHaveOneSortedForm` | api/v1alpha1/nodesecuritygroup_types.go:264-280 | Any two orders of the same rules sort to the same five fields, and to the same list if those differ |
| `Sorting.SortedFormUnique` | internal/usecase/ingress_uc/build_pool.go:261-268 | For any total order of keys, sorting has one result up to elements of equal key |
| `Sorting.SortSlice` | internal/usecase/ingress_uc/build_pool.go:153-166 | Some permutation in order, and nothing more is promised |
| `IngressOutput.BuildPoolsAndListeners` | internal/usecase/ingress_uc/build_pool.go:27-169 | Succeeds exactly on acceptable input, and then every listener holds the routes of its rules, every pool named is there once, and all is in name order; `ListenersStandWhere` and `PathsStandWhere` say which listeners those are |
| `IngressOutput.ListenersStandWhere` | internal/usecase/ingress_uc/build_pool.go:58-96 | There is `vks_https_listener` on port 443 exactly with TLS entries, `vks_http_listener` on port 80 exactly with a default backend or a rule whose host is empty or without TLS, and no other; each has the default pool exactly when the default backend resolves, and the access list of the annotations |
| `IngressOutput.PathsStandWhere` | internal/usecase/ingress_uc/build_pool.go:98-134 | Every kept path of a TLS host has its policy on the listener of port 443, every other one on that of port 80 |
| `IngressOutput.PoliciesComeFrom` | internal/usecase/ingress_uc/build_pool.go:98-134 | And every policy there comes from such a path |
| `IngressOutput.RoutesAreConserved` | internal/usecase/ingress_uc/build_pool.go:98-134 | Policies and kept paths correspond one to one: each kept path has its policy on the listener of its host, each policy comes from a kept path, names are distinct |
| `IngressOutput.RoutesExactly` | internal/usecase/ingress_uc/build_pool.go:98-134 | The policies of a listener are those of the kept paths of its rules and nothing else |
| `IngressOutput.PoliciesAreWellPlaced` | internal/usecase/ingress_uc/build_listener.go:257-285 | In the finished listener names are distinct and positions are 1..n, each once, higher priority first |
| `IngressDeterminism.OutputIsDetermined` | internal/usecase/ingress_uc/build_pool.go:136-169 | Two compilations of one Ingress whose endpoints were listed in different orders have the same pools; without reordering they are equal, and with it they differ at most in the positions of policies that share their priority with another one |
| `IngressDeterminism.AcceptanceIsDetermined` | internal/usecase/ingress_uc/build_pool.go:27-169 | One is accepted exactly when the other is |
| `IngressDeterminism.SamePools` | internal/usecase/ingress_uc/build_pool.go:153-160 | The pools are equal, members in the same order |
| `IngressDeterminism.ListenersAlike` | internal/usecase/ingress_uc/build_pool.go:161-166 | The listeners hold the same policies in the same order, each in the same place if no other has its priority |
| `IngressOutput.ServedRightExactlyWhen` | internal/usecase/ingress_uc/build_pool.go:29-37 | The pool a route names serves the route's own endpoints exactly when the first path that redirects to a pool of that name resolves to the same members |
| `IngressOutput.PoolOfRoute` | internal/usecase/ingress_uc/build_pool.go:111-126 | The pool a route names is in the output and was built for the first path of that name |
| `IngressOutput.RoutesReachTheirService` | pkg/utils/name_helper.go:90-98 | A route to a short enough Service names a pool that serves that Service and port, whatever else the Ingress routes |
| `IngressOutput.SharedPool` | internal/usecase/ingress_uc/build_pool.go:29-37 | Of two Services whose names agree in the first 35 characters behind the namespace, the compiled output serves the second's route by the first one's endpoint |
| `IngressOutput.SharedPoolExample` | internal/usecase/ingress_uc/build_pool.go:29-37 | The same of the compiled output for two literal Services of 35 characters |
| `IngressOutput.OriginOfDefault` | internal/usecase/ingress_uc/build_pool.go:42-56 | The pool of the default name is the default backend's, never a route's |
| `IngressOutput.ArrangePolicies` | internal/usecase/ingress_uc/build_pool.go:136-166 | Sorting by name after placing keeps every policy and its position |
| `IngressCompiler.CompileRules` | internal/usecase/ingress_uc/build_pool.go:98-134 | Fails exactly if a path is broken; else both listeners hold their routes, written only to listeners that were built |
| `IngressCompiler.CompileRule` | internal/usecase/ingress_uc/build_pool.go:102-133 | The policies of one rule, appended in order |
| `IngressCompiler.CompilePath` | internal/usecase/ingress_uc/build_pool.go:104-126 | Kept, left out or fatal, as the backend decides; the pool of a kept path is there afterwards |
| `IngressCompiler.FateOfOrdinaryPath` | internal/usecase/ingress_uc/build_pool.go:104-126 | A path that is not implementation-specific is left out, fatal or kept as its backend resolves; kept, its policy redirects exactly its requests to the pool of its Service and port |
| `IngressCompiler.AddFirst` | internal/usecase/ingress_uc/build_pool.go:122-125 | A path's pool is added exactly if no earlier path has brought one of that name |
| `IngressCompiler.AppendPool` | internal/usecase/ingress_uc/build_pool.go:29-37 | A pool is added unless its name is there; names stay distinct |
| `IngressCompiler.BuildDefaultPool` | internal/usecase/ingress_uc/build_pool.go:41-57 | The default pool exists exactly when the default backend resolves |
| `IngressCompiler.CheckNeedHTTPListener` | internal/usecase/ingress_uc/build_pool.go:519-543 | True exactly with a default backend or a rule whose host is empty or has no TLS |
| `IngressCompiler.IsValidToBuildHTTPSListener` | internal/usecase/ingress_uc/build_pool.go:545-558 | HTTPS exactly with TLS entries; an error exactly when certificates are missing |
| `IngressCompiler.CollectTlsHosts` | internal/usecase/ingress_uc/build_pool.go:90-96 | The hosts of all TLS entries |
| `IngressCompiler.BuildListener` | internal/usecase/ingress_uc/build_listener.go:16-54 | The listener to start from, whose name, port, default pool and access list `IngressOutput.ListenersStandWhere` states, or an error exactly when the access list is refused |
| `IngressPools.BuildPool` | internal/usecase/ingress_uc/build_pool.go:191-304 | Left out exactly for a missing Service or port, fatal exactly for other failures, else the named pool with the endpoints in address order |
| `IngressPools.FindServicePort` | internal/usecase/ingress_uc/build_pool.go:202-213 | The first port that matches by name or number |
| `IngressPools.PortOfIsFirst` | internal/usecase/ingress_uc/build_pool.go:202-213 | A port is found exactly when one has the number or the name asked for, and then it is the first |
| `IngressPools.ResolveIs` | internal/usecase/ingress_uc/build_pool.go:191-260 | A backend is left out exactly without its Service or port, and fatal exactly when a read fails |
| `IngressPools.BuildMembers` | internal/usecase/ingress_uc/build_pool.go:246-268 | One member per endpoint, sorted by address |
| `IngressPools.ServesAll` | internal/usecase/ingress_uc/build_pool.go:246-268 | Each endpoint has its member and each member its endpoint, with address, port, name and the health-check port or its own, by address and then by port |
| `IngressPools.MembersHaveOneOrder` | internal/usecase/ingress_uc/build_pool.go:261-268 | The member list does not depend on the order of the endpoints |
| `Policies.BuildPolicyByPath` | internal/usecase/ingress_uc/build_policy.go:18-61 | Without a matching entry the policy redirects to a pool and applies to exactly the requests of its host whose path equals, or has as string prefix, the rule's path; with one it is built exactly when the entry is usable |
| `Policies.BuildPolicyByRegex` | internal/usecase/ingress_uc/build_policy.go:63-147 | The first matching entry decides: its policy, which does as configured, or a refusal |
| `Policies.ConvertConfig` | internal/usecase/ingress_uc/build_policy.go:67-139 | Accepted exactly when all rules are known and distinct, the action is known and a URL redirect is complete; the policy then applies exactly when all rules of the entry hold and has its action, redirect URL, code and query flag |
| `Policies.PolicyMeansItsPath` | internal/usecase/ingress_uc/build_policy.go:18-61 | The policy applies to exactly the requests of its host whose path equals, or has as string prefix, the rule's path |
| `Policies.WholeElementsExactlyWhen` | internal/usecase/ingress_uc/build_policy.go:24-25 | A prefix policy never cuts into a path element exactly when its path ends in a slash |
| `Positions.AddPositions` | internal/usecase/ingress_uc/build_listener.go:257-285 | For every sort the library may produce, positions 1..n each once, higher priority first, nothing else changed |
| `Positions.RanksPlaceWell` | internal/usecase/ingress_uc/build_listener.go:270-282 | Positions by rank are such a permutation for any order of falling priority |
| `Positions.RearrangedStaysPlaced` | internal/usecase/ingress_uc/build_pool.go:161-166 | Rearranging placed policies keeps them well placed |
| `Positions.PlaceOf` | internal/usecase/ingress_uc/build_listener.go:257-285 | The position of a policy is above the number of those of higher priority and at most the number of those of no lower one |
| `Positions.SamePlace` | internal/usecase/ingress_uc/build_listener.go:257-285 | A policy whose priority no other has gets the same position from every sort |
| `Positions.GetPolicyPriority` | internal/usecase/ingress_uc/build_listener.go:287-293 | The sum of the rules' priorities |
| `Positions.RuleWeighs` | internal/usecase/ingress_uc/build_listener.go:295-319 | The weight of a rule: its factor by comparison, a hundred times as much for a host, times its length |
| `Positions.PolicyWeighs` | internal/usecase/ingress_uc/build_listener.go:287-293 | Weights of rules add up |
| `Positions.MoreSpecificFirst` | internal/usecase/ingress_uc/build_listener.go:295-319 | Of two policies of one host that apply to a request, an exact path comes before a prefix and a longer prefix before a shorter one |
| `Positions.HostFirstExactlyWhen` | internal/usecase/ingress_uc/build_listener.go:295-319 | A policy with a host comes before all applying ones without exactly when its weight exceeds that of the request's whole path |
| `Positions.LongPathBeatsHost` | internal/usecase/ingress_uc/build_listener.go:295-319 | On host `a.b`, the host's own prefix `/` and a hostless exact path of 301 characters both apply, and the hostless policy has the higher priority |

## Left out

- Addresses, domains, tags, conditions and generations in the status; descriptions in specs.
- Waiting and back-off timing: a wait is a step that may fail. The two validation hooks of the deploy pass, which do nothing.
- The lock map and concurrent passes on one load balancer: passes are sequential.
- Wire formats of the cloud SDK: a request is applied exactly or not at all, and an update without a member list leaves members as they are. Lists the SDK may leave out count as empty.
- Looking up the default package by name: the package id is a configuration value.
- Outside edits during a pass, and outside edits that break referential integrity, unique names or unique ids; the cloud is taken to refuse the latter.
- Two spec groups of one name in one pool: the later update in the bulk request replaces the earlier. The exact post-states assume distinct names; the safety theorems do not, except for uniqueness itself.
- Names and lower-casing beyond ASCII; the hash in a name is any five characters.
- Names.PolicyNamesDiffer: assumes indices with together at most 31 digits, which every Ingress that fits in memory has.
- IngressOutput.RoutesAreConserved: assumes a five-character hash and indices that fit in the names, as Names.PolicyNamesDiffer does.
- IngressOutput.PoliciesAreWellPlaced: makes the same assumption; Positions.AddPositions states the placement for any list with distinct names.
- Positions wider than 32 bits.
- Which of several load balancers of one name is found: any of them.
- Concurrent tag reads that overlap a tag write: calls do not overlap.
- TtlCaches.TtlCache.Put: requires that eviction ends; the other case is EvictionNeverEnds.
- Recovery.Recover: assumes a fit spec, and at the start of the three passes no dial and no protocol at odds with it and an existing load balancer; Leftovers.PassesResend, Recovery.EndsExactlyWhen and Recovery.MissingStays show what happens otherwise.
- IngressDeterminism.OutputIsDetermined: assumes that no endpoint list repeats an address, a five-character hash and indices that fit in the names.
- Leftovers.EmptyPoolFlickers: assumes that the cloud does not give the pool an id that the record still holds from an earlier one.
- Quiescence.TwoPasses: assumes a settled load balancer, distinct names, ports and addresses, dials unset or already equal, headers that survive their encoding, and no spec pool that is both empty and unused; the lemmas above show what happens otherwise.
- Listener, pool and certificate settings that the Ingress compiler copies from annotations without interplay (timeouts, algorithm, health check, certificates, headers), JSON and URL parsing, and CIDR recognition, which are parameters.
- Reads of Services and endpoints within one compilation are taken to agree with each other.
- The L4 load balancer configuration, node security group reconciler, Service controller and VLB controller use cases; controllers, event handlers, metrics and mocks.
