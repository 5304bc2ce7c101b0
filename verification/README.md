# Dockward: a verified model of the self-healing deploy agent

Dockward watches a local registry, redeploys compose projects whose images changed, rolls a bad deploy
back and blocks its digest, and restarts containers that turn unhealthy. This project models its
stateful core in Dafny and proves what the parts promise over whole runs.

`dafny verify dfyconfig.toml` checks everything.

## How the model is built

Code that updates maps and lists step by step is a class with the same fields. Each method is proved
equal to a function on the abstract state (`View()`), and the theorems are about that function and about
runs: sequences of events in any order, interpreted by a `Step` function.

| files | subject |
|---|---|
| Refs, Tagging, Retagging, Rollback, DeployCycle, SharedTags | image references, the tagging loop before a deploy, the retag loop of a rollback, the whole failed deploy, deploys of all services over one tag store |
| Updater, Checks | the updater's maps, the per-image check loop, poll-error suppression, compose drift, unblock, cleanup |
| Protocol, Suppression, Alerts, Reports, Drift, Gauge | the four entry points that start a compose operation, interleaved; what holds over all runs |
| Verification | the two timed health loops |
| Healer, Healing, Agent | the healer's handlers and verification tasks in any order; healer and updater together |
| Hub, HubRuns | SSE hub and connection limiter |
| Coordinator | graceful shutdown |
| AuditLog, LogHistory | audit log rotation against the history of all entries |
| Ring, Heartbeat | the warden's ring buffer and the agent heartbeat |
| Config | service defaults and validation |

Registry answers, local digests, container listings, health observations, Docker's acceptance of a call,
and the clock are inputs: every theorem holds for all of them. One step is one healer handler, one check up
to the point where compose is invoked, one compose result, or one verification result. Docker's tag store
is a map from canonical references to image IDs, a tag call is refused for malformed tags, unknown sources
and an arbitrary set of targets, and a pull may do anything except move `:rollback` tags.

## Where the code and its description differ

The model follows the code. These differences are theorems here.

- A failing deploy alerts on every poll although `errored` is documented to suppress repeats
  (internal/watcher/updater.go:50-53, 329-331): the check clears the entry before deploying
  (`Alerts.FailingDeployAlwaysAlerts`).
- `tryStartDeploy` is said to guard against races, but three of the four entry points ignore its result, and an
  operation that ends clears the flag of every other one (`Protocol.OverlapUncoversDeploy`). internal/watcher/updater.go:104-111
  promises that the healer keeps out of deploys; it can then restart a container in mid-deploy
  (`Agent.OverlapLetsHealerIn`). The flag covers a service's operations throughout a run exactly when none of them ends
  while another is in flight (`Protocol.CoveredExactly`), and that is exactly when the healer stays out
  (`Agent.HealerStaysOutExactly`).
- An overlap can also let a rolled-back digest be deployed again (`Suppression.RivalRollbackReopens`, a run from the
  start). It does not happen when the rolled-back deploy was the only operation of its service in flight
  (`Suppression.NoRollbackLoopExclusive`), and in any run `Suppression.BlockLastsExactly` says how long a block lasts.
- Rollback references carry no service name. A second service that deploys an image of the same name moves the tag, and
  the first one's rollback then installs the second one's image and reports success (`SharedTags.OtherServiceTakesTag`);
  `SharedTags.RollbackRestoresInRuns` says exactly when a rollback restores.
- A healthy event resets the restart counter only if the service was degraded; docs/03-guides/02-heal-only-mode.md:75
  and :85 describe a reset on every one (`Healing.HealthyResetsOnlyDegraded`, `Healing.LateFailureSticks`). The
  counter counts failed verifications, not restart attempts (`Healing.CountsAreFailures`).
- CHANGELOG.md:272 rules out two recovery alerts for one restart. They are still sent when the verification comes
  before the healthy event, and when it comes after but the service died in between
  (`Healing.OneRestartManyAlerts`); `Healing.TwoAlertsExactly` says exactly when.
- The heal cooldown is per container, not per service as docs/01-getting-started/04-features.md:15 has it
  (`Healing.SiblingRestartsAtOnce`). Nor is it the minimum between restarts of docs/03-guides/02-heal-only-mode.md:83 for
  one container: a healthy event in between ends it (`Healing.FlappingRestartsAtOnce`). `Healing.RestartIssuedExactly`
  says from the history alone when a restart is issued.
- Exited containers count as running, so a stopped project is not auto-started as
  docs/03-guides/01-full-mode.md:175 describes (`DeployCycle.AutoStartExactly`, `DeployCycle.FindContainerByProject`).
- The updater takes the last colon of a reference for the tag separator even when it is a port's, so an untagged
  reference to a registry with a port is not recognised as the image, unless the host without its port happens to end
  in the image name (`Refs.ParsersAgree`, `Rollback.OwnContainerIsFound`).
- Two log rotations in one second overwrite an archive and lose entries from the middle of the history, and a clock set
  back puts archives out of order (`LogHistory.SameSecondRotation`, `LogHistory.RotationKeepsSuffixExactly`).
- docs/02-reference/03-metrics.md:26 lets the blocked gauge tell whether a digest is blocked. It can read 0 while an
  image is still blocked (`Gauge.LoweredGaugeMayHideBlock`, a run from the start). It is right throughout a run exactly
  when no check lifts some of a service's blocks and leaves others (`Gauge.GaugeIsRightExactly`), hence always for
  services with a single image (`Gauge.SingleImageGaugeIsRight`). Both presuppose that no other service's name is nested
  with this one's, as slash-free names never are. Validation accepts slashes, and unblocking "a" lifts the blocks of
  "a/b" while its gauge stays raised (`Gauge.NestedNamesRaiseInVain`).

## Model

| member | source | states |
|---|---|---|
| `Refs.DockerReading` | internal/docker/images.go:107-123 | the Docker client's split is the registry client's when the last colon follows the last slash, and otherwise leaves the whole reference as name with tag latest |
| `Refs.ParsersAgree` | internal/registry/registry.go:79-84 | the updater's, registry's and Docker client's splits agree exactly on references without a colon or with one after the last slash |
| `Refs.SplitInvertsJoin` | internal/watcher/updater.go:1233-1245 | cutting at the last colon recovers name and tag exactly when the tag has no colon |
| `Refs.DockerSplitInvertsJoin` | internal/docker/images.go:107-123 | the Docker client recovers name and tag exactly when the tag has neither colon nor slash |
| `Refs.CanonicalOfJoin` | internal/docker/images.go:107-123 | a name joined with a valid tag is its own canonical reference, and both parts are recovered from it |
| `Refs.UntaggedIsLatest` | internal/registry/registry.go:79-84 | for every parser a reference without a colon names the tag latest |
| `Refs.JoinInjective` | internal/watcher/updater.go:1233-1245 | different pairs of name and colon-free tag never join to the same reference |
| `Refs.KeysPartition` | internal/watcher/updater.go:1102-1118 | for all names, an image's key falls under the unblock prefix of an owner exactly when the service is the owner, is nested under it, or the owner is nested under the service and the image begins with the rest |
| `Refs.ApartKeysPartition` | internal/watcher/updater.go:1102-1118 | for names that are not nested, exactly when that service owns it |
| `Refs.SlashFreeIsApart` | internal/watcher/updater.go:1103 | slash-free names are never nested |
| `Refs.KeyInjective` | internal/watcher/updater.go:472 | for slash-free services equal keys mean equal service and equal image |
| `Tagging.Docker.TagImage` | internal/docker/images.go:40-51 | a tag call points one reference at the resolved source, or fails and changes nothing |
| `Tagging.TagRunningImage` | internal/watcher/updater.go:722-739 | the first running container carrying the image name decides: its reference is captured and its image tagged for rollback, all or nothing when it cannot be inspected |
| `Tagging.TagRunningImages` | internal/watcher/updater.go:720-740 | the loop over all changes, in place on the list of changes and the tag store |
| `Tagging.FirstRunningIsCaptured` | internal/watcher/updater.go:723-737 | the first listed container in state "running" whose image name is the change's, or ends in it after a slash, is captured with its reference; if it cannot be inspected, nothing is |
| `Tagging.NothingRunningIsCaptured` | internal/watcher/updater.go:724-730 | if there is no such container nothing is captured |
| `Tagging.CapturedWasRunning` | internal/watcher/updater.go:725-727 | whatever is captured was listed as running; stopped containers never are, wherever they are listed |
| `Tagging.RetagImage` | internal/watcher/updater.go:961-975 | compose reference first, then the registry reference; only the latter's failure is reported |
| `Tagging.RetagAll` | internal/watcher/updater.go:959-976 | every image is tried, one registry refusal makes the loop fail |
| `Rollback.PrepareTagsRunning` | internal/watcher/updater.go:717-740 | after the tagging loop each changed image's rollback reference holds the image ID that runs |
| `Rollback.RollbackTagIsLive` | internal/watcher/updater.go:717-740 | after the tagging loop "host/name:rollback" holds the image ID of the first running container that carries the image |
| `Rollback.RefsSpelledOut` | internal/watcher/updater.go:961-964 | the registry and rollback references of "name:tag", spelled out |
| `Rollback.RestoredSpelledOut` | internal/watcher/updater.go:959-976 | restored means that "host/name:tag" and the container's own reference hold the image ID of the first running container |
| `Retagging.RetagExactly` | internal/watcher/updater.go:959-976 | for any list of changes with writable registry tags the loop fails if and only if some change has no rollback tag; each reference gets the ID of the rollback tag of the last change that wrote it, and is untouched if none did |
| `Retagging.RetagKeepsRollbackRefs` | internal/watcher/updater.go:959-976 | the retag loop leaves every rollback reference as it is, so a failed rollback leaves them to the next cycle |
| `Rollback.StaleTagIsRestored` | internal/watcher/updater.go:978-1031 | an image without a running container is rolled back to the rollback tag an earlier cycle left, and without one the rollback fails |
| `Rollback.WrittenIsNoRollbackRef` | internal/watcher/updater.go:959-976 | the retag loop never overwrites any image's rollback reference |
| `Rollback.RetagWrites` | internal/watcher/updater.go:959-976 | after the retag loop a reference holds the old ID of the last change that wrote it, and otherwise what the pull left |
| `Rollback.RollbackRestoresExactly` | internal/watcher/updater.go:702-760 | rollback restores both references of every changed image after every admissible pull if and only if every such reference is written, and only for images with the same running ID |
| `Rollback.UncontestedRestores` | internal/watcher/updater.go:940-1031 | the positive half for one pull: all references of all images name the old IDs again |
| `Rollback.ContestedFails` | internal/watcher/updater.go:959-976 | for any contested image a pull is constructed that leaves a reference wrong |
| `Rollback.DisjointNamesRestore` | internal/watcher/updater.go:720-740 | image names that do not nest, running from explicitly tagged references, are always restored and no failure is reported |
| `Rollback.OwnContainerIsFound` | internal/watcher/updater.go:729-730 | a container filed under the image's registry repository is matched exactly when its reference is tagged or has no port to cut at, or the host without its port ends in the image name |
| `DeployCycle.FindContainerByProject` | internal/watcher/updater.go:1205-1223 | status of the listing, and its first running or exited container, else the first one as stuck, else none; failed listings read as none |
| `DeployCycle.AutoStartExactly` | internal/watcher/updater.go:553-624 | for any listing, auto-start is decided exactly when every image was read and none is out of date, no listed container is running or exited, auto-start is on, and no start at the first up-to-date digest is on record; the project is taken down first exactly when containers are listed |
| `Tagging.Docker.RemoveImage` | internal/docker/images.go:88-90 | a known reference Docker lets go is removed, otherwise nothing changes |
| `DeployCycle.Cleanup` | internal/watcher/updater.go:1058-1065 | every change is tried; refused removals leave their tag |
| `DeployCycle.RollBack` | internal/watcher/updater.go:940-1056 | digests are blocked first; a retag failure or compose failure ends it with the rollback references kept |
| `DeployCycle.CleanupExactly` | internal/watcher/updater.go:1058-1065 | after the cleanup exactly the rollback references of the changed images that Docker lets go are gone |
| `DeployCycle.CleanupKeepsRestored` | internal/watcher/updater.go:1055-1065 | an image is restored after removing the rollback references exactly when it was before |
| `DeployCycle.NothingContestedRestores` | internal/watcher/updater.go:940-1056 | tagging, any pull, retagging and cleanup together restore every image that is not contested |
| `DeployCycle.FailedDeploy` | internal/watcher/updater.go:702-760 | the whole cycle run on the objects, whether or not the final compose call and the removals succeed: all image references name what ran before and every new digest is blocked |
| `Rollback.RestoresIffTagsHold` | internal/watcher/updater.go:959-976 | for images with separate references the retag loop succeeds and restores all if and only if every rollback tag still holds the ID that ran |
| `SharedTags.StepOnRollbackRef` | internal/watcher/updater.go:717-740 | what each start, pull, rollback and success of any service does to a rollback reference |
| `SharedTags.HeldExactly` | internal/watcher/updater.go:722-734 | in any interleaving a rollback reference holds an ID exactly when the last event that tagged or removed it tagged it so |
| `SharedTags.RollbackRestoresInRuns` | internal/watcher/updater.go:757-976 | in any interleaving of deploys of all services a rollback brings its images back if and only if for each of them the last such event since its own start found the same image running |
| `SharedTags.OtherServiceTakesTag` | internal/watcher/updater.go:722-734 | a second service's deploy of an image of the same name makes the first one's rollback install the wrong image without reporting a failure |
| `Updater.Updater.TryStartDeploy` | internal/watcher/updater.go:115-123 | the flag is set, and true returned, exactly when it was clear |
| `Updater.Updater.ClearDeployingFlag` | internal/watcher/updater.go:126-130 | only the service's flag is removed |
| `Updater.Updater.HandlePollError` | internal/watcher/updater.go:332-363 | an alert and a new record exactly when the message differs from the recorded one |
| `Updater.Updater.ClearError` | internal/watcher/updater.go:390-412 | the service's record is removed when it holds a message |
| `Updater.Updater.CheckOneImage` | internal/watcher/updater.go:471-550 | one pass of the image loop with its early continues |
| `Updater.Updater.CheckAllImages` | internal/watcher/updater.go:471-550 | the image loop, ended by the first registry error |
| `Updater.Updater.CheckAndUpdate` | internal/watcher/updater.go:459-653 | the whole check up to the compose call: tables and decision |
| `Updater.Updater.BlockChanged` | internal/watcher/updater.go:945-953 | every new digest of the list is blocked and the gauge raised |
| `Updater.Updater.UnblockService` | internal/watcher/updater.go:1102-1118 | whatever the visiting order, exactly the keys under the prefix go, and the gauge drops if there was one |
| `Updater.Updater.CleanupOldEntries` | internal/watcher/updater.go:212-237 | exactly the entries of unconfigured names go from the three tables |
| `Updater.DeleteUnlisted` | internal/watcher/updater.go:212-219 | deleting while iterating, in any order, leaves exactly the listed entries |
| `Updater.Updater.CheckComposeDrift` | internal/watcher/updater.go:281-301 | no files or an unreadable one change nothing; first sight only stores the hash; a later change asks for a redeploy and sets the flag whoever holds it |
| `Updater.FailureStops` | internal/watcher/updater.go:476-479 | after a registry error the rest of the images is not looked at |
| `Checks.PassElsewhere` | internal/watcher/updater.go:471-550 | a pass over one image leaves the suppression entries and alerts of every other key alone |
| `Checks.PassGivesVerdict` | internal/watcher/updater.go:481-549 | one pass decides suppressed, not found, up to date or changed from the image's own entries and reading |
| `Checks.ImagesAreIndependent` | internal/watcher/updater.go:471-550 | the same verdict comes out of the whole loop for each image reached, whatever the other images read; an unreached image keeps its entries and is not deployed |
| `Checks.OtherKeysUntouched` | internal/watcher/updater.go:471-550 | keys of no listed image keep entries and get no alert |
| `Checks.CheckTouchesOnlyItsTables` | internal/watcher/updater.go:471-550 | the image loop never touches the deploying, error, start or compose tables and sends no error alert |
| `Checks.FailureIffUnreached` | internal/watcher/updater.go:476-479 | the loop fails exactly when some registry answer is an error |
| `Checks.ChangesWereRead` | internal/watcher/updater.go:544-549 | every change carries the digest read for its image in this check |
| `Checks.ChangesAreDistinct` | internal/watcher/updater.go:545-549 | listing each image once gives at most one change per image |
| `Checks.NothingToDeploy` | internal/watcher/updater.go:471-553 | a check finds nothing to deploy exactly when every registry answer came and no unsuppressed image differs from the registry |
| `Checks.DeployedExactly` | internal/watcher/updater.go:536-549 | a check deploys exactly when every registry answer came and some image is out of date, and the list holds exactly the images out of date with the digests read |
| `Checks.FirstErrorIsReported` | internal/watcher/updater.go:476-479 | the failure of a check is the first registry error, and the images before it had their effect |
| `Checks.RepresentativeIsFirst` | internal/watcher/updater.go:536-542 | the digest guarding auto-start is that of the first image found up to date, empty exactly when there is none |
| `Checks.LiftingClearsGauge` | internal/watcher/updater.go:489-495 | a check that lifts a block lowers the service's gauge and lifts only blocks under the service's prefix |
| `Protocol.StepMoves` | internal/watcher/updater.go:702-763 | every step sets, keeps or clears one service's flag together with its count of operations in flight |
| `Protocol.OperationsByEvent` | internal/watcher/updater.go:599-760 | which kind of operation each event starts, whether it counts as asked for by hand, and that operations keep their identity until they end |
| `Protocol.FlagNeverLeaks` | internal/watcher/updater.go:113-130 | in every interleaving of polls, drift checks, forced redeploys and results, a set flag has an operation in flight that will clear it |
| `Protocol.QuiescentMeansClear` | internal/watcher/updater.go:599-647 | with nothing in flight no flag is set |
| `Protocol.ExactUnlessOverlap` | internal/watcher/updater.go:301-325 | a step keeps the flags exact if and only if it is no unguarded start on a set flag |
| `Protocol.ExactRuns` | internal/watcher/api.go:1837-1866 | over a whole run flags are set exactly while one operation is in flight, and at most one is, if and only if no start overlapped |
| `Protocol.StepKeepsCovered` | internal/watcher/updater.go:126-130 | a flag that is set exactly while something is in flight stays so in a step if and only if the step does not end one of several operations of the service |
| `Protocol.CoveredExactly` | internal/watcher/updater.go:104-111 | over a whole run the flag is set exactly while an operation of the service is in flight, if and only if none ended while another was in flight |
| `Protocol.ExactIsCovered` | internal/watcher/updater.go:711-715 | without overlapping starts that is always so |
| `Protocol.GuardedNeverOverlaps` | internal/watcher/updater.go:711-715 | only auto-start, drift and forced redeploys can overlap, never the guarded deploy |
| `Protocol.OverlapUncoversDeploy` | internal/watcher/api.go:1839-1842 | a failed forced redeploy during a deploy clears the flag while the deploy is still composing |
| `Suppression.RunsKeepOpsSane` | internal/watcher/updater.go:544-549 | deploys in flight always carry distinct images and digests read from the registry |
| `Suppression.BlockRecords` | internal/watcher/updater.go:946-951 | the blocking loop records a carried digest for every image of the list and nothing else |
| `Suppression.RollbackBlocks` | internal/watcher/updater.go:945-952 | after a rollback exactly the rolled-back digest is blocked for each of its images |
| `Suppression.BlockHolds` | internal/watcher/updater.go:481-495 | a block survives a step if and only if the step reads no other digest for it, does not unblock the service and rolls back no other digest of the image |
| `Suppression.BlockLastsExactly` | internal/watcher/updater.go:481-495 | from its rollback on a digest is blocked throughout a stretch of a run if and only if no step of the stretch is one of these three |
| `Suppression.NoRollbackLoop` | internal/watcher/updater.go:481-495 | in any interleaving a rolled-back digest is deployed again only after one of these three |
| `Suppression.NoRollbackLoopExclusive` | internal/watcher/updater.go:702-715 | when the rolled-back deploy was alone in flight and one service has the image's key to itself, only another remote digest or a manual unblock re-admits the digest |
| `Suppression.ExactIsAlone` | internal/watcher/updater.go:711-715 | in runs without overlapping starts a rolled-back deploy is always alone in flight |
| `Suppression.SlashFreeHasOneOwner` | internal/watcher/updater.go:472 | in runs over slash-free names every key belongs to one service |
| `Suppression.UnblockIsExact` | internal/watcher/updater.go:1102-1118 | an unblock lifts every block of the service and none of a service whose name is not nested with its own |
| `Suppression.UnblockAnswers` | internal/watcher/updater.go:1102-1118 | an unblock answers true exactly when it lifted something |
| `Suppression.CleanupExactly` | internal/watcher/updater.go:212-237 | exactly the entries of unconfigured names go from the three tables, nothing from the others |
| `Suppression.RivalRollbackReopens` | internal/watcher/updater.go:945-953 | a run from the start in which a failed forced redeploy lets two deploys of one image through, the second rollback overwrites the first block, and the first digest is deployed again |
| `Alerts.NotFoundAlertRecords` | internal/watcher/updater.go:513-522 | a not-found alert names a digest that was not on record and is now |
| `Alerts.NotFoundAlertsAreSeparated` | internal/watcher/updater.go:497-533 | over any run two such alerts for one image at one digest have a check reading another digest between them |
| `Alerts.StepMovesError` | internal/watcher/updater.go:332-412 | what every step does to a service's recorded error and its error alerts |
| `Alerts.ErrorAlertExactly` | internal/watcher/updater.go:332-345 | an error alert goes out exactly when the message differs from what is on record at that moment |
| `Alerts.MessageIsLast` | internal/watcher/updater.go:332-412 | in every run the recorded error is the last message reported since the last clear |
| `Alerts.ErrorAlertInRun` | internal/watcher/updater.go:335-341 | over any history a repeat is silent exactly when it equals that message |
| `Alerts.ErrorAlertsAreSeparated` | internal/watcher/updater.go:390-401 | two error alerts with one message have another message or a clear between them |
| `Alerts.FailingDeployAlwaysAlerts` | internal/watcher/updater.go:744-753 | a deploy whose compose call fails alerts again on every poll, whatever was on record |
| `Reports.RegistryErrorIsReported` | internal/watcher/updater.go:249-250 | a poll that meets a registry error records it and alerts it exactly when it differs from the record; a check asked for by hand does neither |
| `Reports.CompletePollIsSilent` | internal/watcher/updater.go:553-651 | a poll that reads every image alerts nothing and clears the record exactly when it decides to deploy, finds containers running, or finds auto-start disabled |
| `Reports.CancelledDeployIsReported` | internal/watcher/updater.go:703-709 | a deploy skipped by shutdown starts nothing and is reported against a clear record |
| `Reports.ComposeResultByKind` | internal/watcher/updater.go:599-647 | what the result of a compose operation does to record and alerts, by what started it |
| `Reports.AutoStartIsReported` | internal/watcher/updater.go:599-647 | after a poll decides an auto-start its failed compose is reported like a poll error and its success clears the record |
| `Reports.DeployIsReported` | internal/watcher/updater.go:744-753 | after a poll decides to deploy its failed compose is reported against a clear record and its success says nothing |
| `Reports.DriftAndForceAreSilent` | internal/watcher/api.go:1839-1855 | a compose operation after a drift or a forced redeploy neither alerts nor touches the record, however it ends |
| `Alerts.StartAttemptedExactly` | internal/watcher/updater.go:588-597 | the recorded start digest changes only by a start, by finding containers running, or by cleanup |
| `Alerts.AutoStartsAreSeparated` | internal/watcher/updater.go:553-599 | two auto-starts at one non-empty digest have one of these between them |
| `Drift.HashIsLastSeen` | internal/watcher/updater.go:291-294 | in every run the stored hash is the one the last drift check saw, or none since the cleanup forgot the service |
| `Drift.DriftRedeploysExactly` | internal/watcher/updater.go:291-301 | in any run a drift check starts a redeploy if and only if an earlier one saw another content |
| `Gauge.StepKeepsBacked` | internal/watcher/metrics.go:129-133 | no step leaves a service's gauge raised without a held block, unless it concerns a service with a nested name |
| `Gauge.RaisedMeansHeld` | internal/watcher/updater.go:945-953 | in every run without names nested with the service's own a raised gauge means some image of it is blocked |
| `Gauge.OnlyCheckedAreRaised` | internal/watcher/updater.go:945-953 | only services that were checked get a raised gauge |
| `Gauge.NestedNamesRaiseInVain` | internal/watcher/updater.go:1102-1116 | a run from the start: unblocking the outer of two nested names leaves the inner one's gauge raised over no block |
| `Gauge.GaugeIsNeverRaisedInVain` | internal/watcher/updater.go:945-953 | in every run over slash-free names a raised gauge means some image of the service is blocked |
| `Gauge.CheckLiftsExactly` | internal/watcher/updater.go:481-495 | a check removes exactly the blocks of the images it reads another digest for, and drops the gauge exactly if there is one |
| `Gauge.StepKeepsRight` | internal/watcher/updater.go:481-495 | without nested names, from a gauge that tells the truth a step keeps it so if and only if it is no check that lifts some of the service's blocks and leaves others |
| `Gauge.GaugeIsRightExactly` | internal/watcher/metrics.go:129-133 | over a whole run without nested names the gauge is up exactly while an image of the service is blocked, if and only if no check lifted only part of its blocks |
| `Gauge.SingleImageGaugeIsRight` | internal/watcher/metrics.go:129-133 | without nested names the gauge of a service with one image is right at every point of every run |
| `Gauge.LoweredGaugeMayHideBlock` | internal/watcher/updater.go:489-495 | a run from the start: two images rolled back at different digests, a fix for one lowers the gauge while the other stays blocked |
| `Verification.VerifyAfterDeploy` | internal/watcher/updater.go:762-831 | success exactly on a running container without healthcheck or status "healthy"; status "unhealthy" rolls back at once with its output; everything else is polled up to the deadline and then rolled back with its own reason |
| `Verification.VerifyHealthAfterCompose` | internal/watcher/updater.go:837-907 | the gauge goes up exactly on a running container without healthcheck or status "healthy", down at once on "unhealthy", and down on everything else past the deadline |
| `Verification.LoopsAgree` | internal/watcher/updater.go:837-907 | on one trace both loops stop at the same tick, healthy exactly on success and unhealthy exactly on rollback |
| `Verification.DecidesInTime` | internal/watcher/updater.go:765-777 | with ticks no closer than five seconds both decide within floor(grace/5)+1 ticks |
| `Verification.StartingUsesWholeGrace` | internal/watcher/updater.go:821-829 | the bound is reached by a container that keeps starting |
| `Healer.Healer.HandleUnhealthy` | internal/watcher/healer.go:140-245 | deploy guard, degraded flag, budget, cooldown and restart in this order |
| `Healer.Healer.VerifyAfterRestart` | internal/watcher/healer.go:247-348 | a failure is counted even when not degraded; a recovery clears and alerts only when degraded |
| `Healer.Healer.HandleHealthy` | internal/watcher/healer.go:350-399 | cooldown consumed, degradation cleared even during a deploy, alert only outside one |
| `Healer.Healer.HandleDied` | internal/watcher/healer.go:401-439 | suppressed at start-up, during deploys and while degraded |
| `Healer.Healer.HandleStarted` | internal/watcher/healer.go:441-484 | recovery without healthcheck |
| `Healer.Healer.SetDegraded` | internal/watcher/healer.go:515-523 | only the one service's flag changes |
| `Healing.UnhealthyEffect` | internal/watcher/healer.go:140-245 | a restart is issued exactly when no deploy runs, healing is on, budget is left and the container is not cooling down; what each table becomes |
| `Healing.UnhealthyAlerts` | internal/watcher/healer.go:158-234 | an unhealthy event alerts exactly when healing is off or the restart command failed |
| `Healing.StartedExactly` | internal/watcher/healer.go:441-473 | a start clears flag, counter and exhaustion and sends one alert exactly when the service was degraded and the inspected container has no healthcheck, and otherwise changes nothing |
| `Healing.DiedExactly` | internal/watcher/healer.go:401-429 | a death degrades and alerts exactly outside start-up and deploys for a service not degraded yet, and otherwise changes nothing |
| `Healing.HealthyExactly` | internal/watcher/healer.go:350-389 | what a healthy event ends, and that it alerts exactly outside a deploy if there was something to end |
| `Healing.VerifiedExactly` | internal/watcher/healer.go:247-337 | a verification counts and alerts a failure, recovers a degraded service, or changes nothing |
| `Healing.RecoversExactly` | internal/watcher/healer.go:313-473 | for all five events, exactly when a service recovers |
| `Healing.BecomesDegradedExactly` | internal/watcher/healer.go:140-429 | for all five events, exactly when a service becomes degraded |
| `Healing.StepIsPaid` | internal/watcher/healer.go:313-337 | sent recovery alerts plus degraded flags plus cooldowns grow only by degradations and successful restarts |
| `Healing.RecoveryAlertsArePaidFor` | internal/watcher/healer.go:350-389 | over any run recovery alerts never exceed degradations plus successful restarts |
| `Healing.OneRestartManyAlerts` | internal/watcher/healer.go:313-337 | one restart yields one recovery alert when the healthy event comes first, two when the verification does, and two again when the service dies in between |
| `Healing.TwoAlertsExactly` | internal/watcher/healer.go:315-318 | in any run a restart's first healthy event alerts exactly outside a deploy, and its verification exactly if the service is degraded then |
| `Healing.HealthyFirstAlertsTwice` | internal/watcher/healer.go:315-318 | with the healthy event first both alert exactly if it falls outside a deploy and the service degrades again before the verification, without recovering |
| `Healing.VerifiedFirstAlertsTwice` | internal/watcher/healer.go:350-389 | with the verification first and no recovery before it, it alerts and so does the healthy event outside a deploy |
| `Healing.DegradedExactly` | internal/watcher/healer.go:515-523 | a service is degraded exactly when it was before or became so since, with no recovery after |
| `Healing.CountsAreFailures` | internal/watcher/healer.go:264-270 | the counter is the number of failed verifications since the last recovery |
| `Healing.ExhaustedWasSpent` | internal/watcher/healer.go:180-193 | in every run, settings edited or not, an exhausted service is degraded and its count has reached the maximum of some unhealthy event handled in the run |
| `Healing.ExhaustedIsDegradedAndSpent` | internal/watcher/healer.go:180-193 | with fixed settings an exhausted service is degraded and at or over its maximum |
| `Healing.NoRestartWhenSpent` | internal/watcher/healer.go:180-193 | once the budget is spent no restart is issued until a recovery |
| `Healing.CountNeverDrops` | internal/watcher/healer.go:322-326 | between recoveries the counter never falls |
| `Healing.HealthyResetsOnlyDegraded` | internal/watcher/healer.go:361-369 | a healthy event leaves the counter at zero exactly when the service was degraded or it was zero already |
| `Healing.LateFailureSticks` | internal/watcher/healer.go:264-270 | a run from the start: a failure reported after the recovery stays counted through any number of healthy events |
| `Healing.RestartsAreVerifiedOnce` | internal/watcher/healer.go:237-251 | successful restarts are the verifications done plus those pending |
| `Healing.CooldownStep` | internal/watcher/healer.go:505-513 | no step but a healthy event shortens a cooldown, and a restart waits for its end |
| `Healing.RestartsAreSpaced` | internal/watcher/healer.go:196-241 | two successful restarts of a container are a full cooldown apart unless a healthy event of it came between |
| `Healing.CooldownIsLast` | internal/watcher/healer.go:237-241 | in every run the cooldown table holds the container's last successful restart plus cooldown, and nothing after a healthy event |
| `Healing.RestartIssuedExactly` | internal/watcher/healer.go:140-213 | from the history alone: a restart is issued exactly outside a deploy, with healing on, fewer failures since the last recovery than allowed, and that cooldown over or ended |
| `Healing.FlappingRestartsAtOnce` | internal/watcher/healer.go:350-355 | a run from the start: one container is restarted twice at the same moment, because a healthy event in between ends the cooldown |
| `Healing.SiblingRestartsAtOnce` | internal/watcher/healer.go:237-241 | another container of the service is restarted at once exactly when it is not cooling down itself |
| `Agent.HalvesAreRuns` | internal/watcher/healer.go:142-145 | each half of a combined run is a run of its own protocol, so both sets of theorems hold together |
| `Agent.FlagStopsRestarts` | internal/watcher/healer.go:142-145 | no restart is issued for a service whose flag is set when the event is taken |
| `Agent.StaysOutExactly` | internal/watcher/healer.go:142-145 | at any point of any run no event can make the healer restart a service with an operation in flight, if and only if the flag covers the service |
| `Agent.HealerStaysOutExactly` | internal/watcher/updater.go:104-111 | over a whole combined run the healer stays out of the service's operations if and only if none of them ended while another was in flight |
| `Agent.HealerKeepsOutOfDeploys` | internal/watcher/updater.go:104-111 | a restart issued in such a run meets no operation of its service |
| `Agent.OverlapLetsHealerIn` | internal/watcher/api.go:1839-1842 | with one it does |
| `Agent.DeploysMuteTheHealer` | internal/watcher/healer.go:140-145 | while the flag is set no death is news, no healthy event alerts and no unhealthy event does anything |
| `Hub.ConnectionLimiter.constructor` | internal/hub/limiter.go:31-43 | caps that are not positive become 10 per address and 1000 in all |
| `Hub.ConnectionLimiter.CanConnectNow` | internal/hub/limiter.go:46-61 | true exactly below both caps |
| `Hub.ConnectionLimiter.AddConnection` | internal/hub/limiter.go:65-80 | both counts rise, or neither |
| `Hub.ConnectionLimiter.RemoveConnection` | internal/hub/limiter.go:83-95 | both counts fall, the last connection of an address removes its entry, an unknown address changes nothing |
| `Hub.Hub.Subscribe` | internal/hub/hub.go:36-57 | a fresh empty channel is registered and counted, or nothing changes and a cap is reached |
| `Hub.Hub.Unsubscribe` | internal/hub/hub.go:60-69 | a registered channel is removed and uncounted, any other changes nothing |
| `Hub.Hub.Broadcast` | internal/hub/hub.go:73-84 | whatever the visiting order, each channel with room gets the message and no other changes |
| `HubRuns.HubAndLimiterAgree` | internal/hub/limiter.go:46-95 | in every reachable state total, client count and sum of per-address counts agree, each count is its address's clients and never zero, no cap is exceeded |
| `HubRuns.AdmittedExactly` | internal/hub/limiter.go:46-80 | in every reachable state a client is admitted exactly while fewer clients than the total cap, and fewer of its address than the cap per address, are connected |
| `HubRuns.UnsubscribeExactly` | internal/hub/hub.go:60-69 | an unsubscribe removes the client, frees one place under both caps, and leaves every other client as it is |
| `HubRuns.QueuesAreFifo` | internal/hub/hub.go:71-84 | a queue with fewer than 64 messages takes a broadcast at its end, a full one drops it, and reads take from the front |
| `HubRuns.UnsubscribeTwice` | internal/hub/hub.go:60-69 | repeating an unsubscribe changes nothing |
| `HubRuns.ClientsAreIndependent` | internal/hub/hub.go:73-84 | in any run a client's stream is what it would be alone |
| `HubRuns.StreamIsDelivered` | internal/hub/hub.go:73-84 | what a client has read or has queued grows by exactly the broadcasts that met fewer than 64 waiting messages, in order |
| `HubRuns.DeliveryIsExact` | internal/hub/hub.go:73-84 | from its subscription on a client's messages are exactly those broadcasts: an ordered subsequence of all, short by those that met 64 waiting messages |
| `HubRuns.NothingLostIffNeverFull` | internal/hub/hub.go:77-82 | every broadcast arrives if and only if the queue was never full at one |
| `HubRuns.SubscriberIsServed` | internal/hub/hub.go:36-84 | the same for a subscriber in arbitrary traffic |
| `Coordinator.Coordinator.RegisterManager` | internal/shutdown/coordinator.go:51-55 | appended to the managers |
| `Coordinator.Coordinator.OperationStarted` | internal/shutdown/coordinator.go:66-76 | admitted exactly before shutdown |
| `Coordinator.Coordinator.OperationCompleted` | internal/shutdown/coordinator.go:79-81 | one active operation less |
| `Coordinator.Coordinator.BeginShutdown` | internal/shutdown/coordinator.go:84-90 | only the first call goes on |
| `Coordinator.Coordinator.LaunchManagers` | internal/shutdown/coordinator.go:105-127 | every manager registered by then is started once, in order |
| `Coordinator.Coordinator.ManagerReturned` | internal/shutdown/coordinator.go:119-126 | a running manager's error is collected |
| `Coordinator.Coordinator.CollectErrors` | internal/shutdown/coordinator.go:129-146 | the call fails exactly when an error was collected |
| `Coordinator.NoAdmissionAfterShutdown` | internal/shutdown/coordinator.go:66-76 | once shutdown begins the active count never rises again |
| `Coordinator.ShuttingDownExactly` | internal/shutdown/coordinator.go:84-90 | shutdown is in progress exactly once it has been called |
| `Coordinator.RegisteredAreListed` | internal/shutdown/coordinator.go:51-55 | in every run the managers listed are those registered, in order |
| `Coordinator.ShutdownGoesOn` | internal/shutdown/coordinator.go:98-127 | a called shutdown starts every registered manager at the timeout, or once nothing is active, and waits otherwise |
| `Coordinator.RunningExactly` | internal/shutdown/coordinator.go:114-130 | the managers waited for are those started that have not returned |
| `Coordinator.CallEndsExactly` | internal/shutdown/coordinator.go:129-131 | the call ends exactly when there is none |
| `Coordinator.ActiveIsConserved` | internal/shutdown/coordinator.go:66-81 | in every run the active count is the operations admitted less those completed |
| `Coordinator.DrainedOrTimedOut` | internal/shutdown/coordinator.go:105-111 | no manager is shut down while an operation is active unless the timeout fired |
| `Coordinator.ManagersStopOnce` | internal/shutdown/coordinator.go:113-127 | a manager registered before the launch is shut down exactly once over any number of calls |
| `Coordinator.LateManagersAreIgnored` | internal/shutdown/coordinator.go:113-127 | a manager registered later never is |
| `Coordinator.ResultIsExact` | internal/shutdown/coordinator.go:133-146 | the call that ran the shutdown returns an error if and only if some running manager failed |
| `AuditLog.Logger.constructor` | internal/audit/audit.go:84-114 | opening counts the entries already in the file |
| `AuditLog.Logger.CleanOldArchives` | internal/audit/audit.go:171-190 | the oldest archives by name go until five remain |
| `AuditLog.Logger.RotateFile` | internal/audit/audit.go:132-168 | the file becomes the archive of this second and a new one starts |
| `AuditLog.Logger.WriteEntry` | internal/audit/audit.go:194-221 | rotation if due, then the entry; a failed rename keeps the file and a failed write is not counted |
| `AuditLog.Logger.Recent` | internal/audit/audit.go:250-279 | the newest n entries of the current file, in order |
| `AuditLog.SortedIsSorted` | internal/audit/audit.go:181-182 | the name order lists each archive once, increasing |
| `LogHistory.WriteKeepsSuffix` | internal/audit/audit.go:194-216 | with a fresh stamp a write leaves a suffix of what was kept plus the entry |
| `LogHistory.WriteBelowLimitAppends` | internal/audit/audit.go:304-323 | below the count limit and with a file that is not too big a write only appends |
| `LogHistory.DueWriteRotates` | internal/audit/audit.go:132-190 | a due write moves the whole file to the archive of its second, starts a file with only the new entry, and keeps exactly the newest five archives |
| `LogHistory.FailedRenameAppends` | internal/audit/audit.go:147-152 | a rotation whose rename fails only appends |
| `LogHistory.RotationLosesOnlyOldest` | internal/audit/audit.go:132-190 | over any run with increasing stamps the kept entries are a suffix of all entries successfully written, at most five archives remain, and the count is the current file's length |
| `LogHistory.NewestAreKept` | internal/audit/audit.go:304-312 | while no file is too big, over any run at least as many entries are kept as were written, up to the limit of one file |
| `LogHistory.LastEntriesAreOnDisk` | internal/audit/audit.go:304-312 | in particular the last entries written, up to that limit, are on disk in order |
| `LogHistory.CurrentFileIsBounded` | internal/audit/audit.go:304-312 | whatever the log was opened with, after every write whose rotation, if due, could rename the file the current file is within its limit |
| `LogHistory.SameSecondRotation` | internal/audit/audit.go:141-147 | with a clock that does not go back, a rotation keeps a suffix if and only if its second is new or the archive it overwrites is the only one |
| `LogHistory.RotationKeepsSuffixExactly` | internal/audit/audit.go:141-147 | whatever the clock does, rotating a file that holds entries keeps a suffix if and only if its stamp is later than every archive's or overwrites the only archive |
| `Ring.Store.Append` | internal/warden/store.go:48-57 | the contents become the last 200 of the old contents and the new entry |
| `Ring.Store.Recent` | internal/warden/store.go:61-79 | the last n entries, newest first |
| `Ring.Store.SetAgentState` | internal/warden/store.go:83-91 | only a configured agent's state changes |
| `Ring.Store.ReverseInPlace` | internal/warden/store.go:125-127 | the swap loop reverses the list in place |
| `Ring.Store.SaveState` | internal/warden/store.go:119-138 | the saved list is the contents, oldest first |
| `Ring.Store.LoadState` | internal/warden/store.go:95-115 | replaying a list leaves the last 200 of both; an unreadable file loads nothing |
| `Ring.ReplayIsLast200` | internal/warden/store.go:48-57 | appending any history one by one leaves its last 200 entries |
| `Ring.RecentOfHistory` | internal/warden/store.go:61-79 | Recent(n) is the reverse of the last min(n, 200, length) entries of the unbounded history |
| `Ring.RecentSpelledOut` | internal/warden/store.go:61-79 | position k shows the k-th newest entry of the history, for min(n, 200, length) positions |
| `Ring.SaveAndRestore` | internal/warden/store.go:95-138 | saving and loading into a fresh store shows the same for every n |
| `Heartbeat.Heartbeat.Observe` | internal/warden/heartbeat.go:85-113 | state recorded here and in the store, an entry appended exactly on a change |
| `Heartbeat.Heartbeat.PollAll` | internal/warden/heartbeat.go:60-64 | one round over all agents is the sequence of their observations |
| `Heartbeat.HeartbeatCompresses` | internal/warden/heartbeat.go:28-113 | for every agent and any polls its events alternate from online, one per change, and the last one is the state both tables hold |
| `Config.Configuration.SetServiceDefaults` | internal/config/config.go:218-228 | every service's missing timings are filled in place |
| `Config.Configuration.CheckComposeFiles` | internal/config/config.go:272-312 | the first bad file decides |
| `Config.Configuration.CheckService` | internal/config/config.go:242-390 | the first broken rule is the reason |
| `Config.Configuration.ValidateServices` | internal/config/config.go:231-397 | services become the valid ones in order, the others are recorded with index and reason |
| `Config.PassedIffRules` | internal/config/config.go:242-393 | a service passes exactly when it is silent or keeps the whole rule set |
| `Config.FirstRuleIsReported` | internal/config/config.go:258-390 | the recorded reason is a broken rule and no earlier rule or file is broken |
| `Config.ValidationIsPartition` | internal/config/config.go:237-397 | merging kept and recorded services by index gives back the input |
| `Config.PartitionFollowsRules` | internal/config/config.go:241-394 | kept services are silent or keep the rules, recorded ones break one and carry their index |
| `Config.RevalidationIsQuiet` | internal/config/config.go:231-397 | validating again changes nothing and reports nothing |
| `Config.DefaultsSettleTimings` | internal/config/config.go:378-390 | after defaults the timing checks are never the reason |
| `Config.DefaultsSpelledOut` | internal/config/config.go:218-228 | timings that are not positive become 60, 300 and 3; positive ones and all other fields stay |
| `Config.ProjectNamesSpelledOut` | internal/config/config.go:265-270 | project names of 1 to 64 letters, digits, dashes and underscores are accepted, no others |
| `Config.PathsSpelledOut` | internal/config/config.go:274-309 | for which paths each path problem is found, and for which none |

## Left out

- Docker, registry, compose, SMTP, Discord, webhook and push clients: foreign calls; their answers are inputs.
- HTTP routing, dashboards, wizards, loggers, saferun, tokens and cookies: no state of the modelled protocols.
- JSON, SHA-256 and environment expansion: a saved list is read back as it was, a compose hash is any string.
- Resource thresholds in percent, Prometheus text, metric counters other than the blocked gauge: arithmetic only.
- `resolveLocalDigestForImage` and `LocalDigest`: the local digest is an input of each image check.
- `deployed`, `lastChecked`, `checkStatus` and their cleanup: display data that no decision reads.
- `onDeploySuccess`: its alerts and counters; its cleanup of rollback references is `DeployCycle.Cleanup`.
- Deploy start times: the deploying flags are a set, not a map to times.
- Alerts of manual triggers, which are never suppressed: the tables' part of a manual trigger is modelled.
- Steps finer than one handler or one check: at single-lock granularity an exhausted service can briefly not be degraded.
- A successful rollback is one step, although the digests are blocked before the flag is cleared.
- `findServiceByEvent`, `seedHealthFromInspect`, the Docker event stream: events arrive with their service.
- `DeployCycle.FailedDeploy`: is one cycle by itself; cycles of several services over one tag store are in `SharedTags.RollbackRestoresInRuns`.
- `Healing.ExhaustedIsDegradedAndSpent`: is about runs with fixed settings; `Healing.ExhaustedWasSpent` covers the others.
- `Updater.Updater.CleanupOldEntries`: models the three tables that decisions read; the set of configured names is an input.
- `Tagging.Docker.TagImage`: the escaping and transport of the request are not modelled; refusals are an arbitrary set of targets.
- `Hub.Hub.Unsubscribe`: does not model a reader draining a closed channel.
- `Hub.Hub.Subscribe`: its check before the lock and the registration are one step; the limiter checks both caps again under the lock.
- `Coordinator.Coordinator.RegisterManager`: registering while managers are being launched is a step before or after the launch.
- `AuditLog.Logger.RotateFile`: does not model failing to open the new file.
- `AuditLog.Logger.CleanOldArchives`: does not model failing to remove an archive, nor foreign files matching the archive pattern.
- `AuditLog.Logger.WriteEntry`: whether the file is over its size limit is an input; a disabled logger, which ignores writes, is not modelled.
- `AuditLog.Logger.Recent`: does not model malformed or overlong lines.
- `Ring.Store.SetAgentState`: the last-seen time, which nothing reads but the display, is not modelled.
- `Heartbeat.Heartbeat.Observe`: the broadcast of the entry to the SSE hub is not modelled.
- `Config.Configuration.ValidateServices`: the checks of global settings and listen addresses after the service loop are not modelled.
- `Config.Configuration.CheckComposeFiles`: paths are looked up as given; `filepath.Clean` is not modelled.
- `Config.Configuration.CheckService`: the same holds for the environment file.
