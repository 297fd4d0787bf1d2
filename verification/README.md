# A model of the GOV.UK Job Request Operator

The operator lets a user ask for a command to be run (a `JobRequest`) and has another user decide
(a `JobRequestReview`). Two controllers work on the same requests with nothing but versioned status
updates between them, and either may fail, be stopped, or read from a lagging cache at any call.
This project models that protocol call by call, the parser of the identities it rests on, and the
tally of states, and proves what every run keeps.

`dafny verify dfyconfig.toml` checks everything.

## How the model is built

* **The store and the steps** (`Api.dfy`, `Protocol.dfy`). `System` is the API server's content, the
  reconciles in flight and a log of effects. A reconcile is what it holds and the call it makes next;
  `Step` is one call of one reconcile, or one move of users, cluster or clock. Each call ends well,
  without effect, or with its effect but an error to the caller (`Outcome`). A status update is
  refused unless made from the stored version, and a refusal is swallowed, as in the source. A review
  reconcile begins from any form the review was ever stored in. `Run` is any sequence of steps, so it
  is any interleaving.
* **The atomic machine** (`History.dfy`). The log alone determines the stored requests and reviews.
  `Allowed` says which single effects are transitions from what is stored.
* **The invariant** (`Invariant.dfy`). Every copy a reconcile holds is current, or overtaken by one
  decision, or behind an update of its own; so each update that is accepted is a transition.
* **Theorems about runs**: `Decisions.dfy` (two-person rule, first decision wins, recorded history,
  write-once verdicts), `Verdicts.dfy` (what a review's verdict says of its request), `Jobs.dfy` (what
  is run is what was approved), `Forms.dfy` and `Pruning.dfy` (a rejection is not revived, at most one
  Job, stated for one request whatever happens to the others), `Bounds.dfy` (rank and number of
  writes), `Progress.dfy` (requests that get to the end, and those that stay without a state),
  `Locality.dfy` and `Commuting.dfy` (requests do not meet each other).
* **Whole reconciles**: `Sequential.dfy` gives an undisturbed reconcile as one big step and proves
  idempotence and exactly when a decided request falls back to Pending. `Schedule.dfy` is one
  reconcile with anything going on between its calls. `Recovery.dfy` has how the operator loses track
  of a Job and what follows, and how a Started request ends; `Revival.dfy` the ways in which a rejection
  is undone or a Job repeated, and what is behind each that happens in any run. `Endings.dfy` and
  `ReviewEndings.dfy` say how every reconcile ends, for every way in which its calls may end and whatever
  others do between them, in the fields of the objects its calls meet.
* **The code's own form**: `Controllers.dfy` has the two reconcilers as classes whose methods change
  objects in memory and the cluster, with the source's branches and loops. `Reconcile` is proved to
  do what `Schedule.dfy` says, on every schedule, so all theorems about runs apply to it, and to end as
  `Endings.dfy` and `ReviewEndings.dfy` say.
  `UserIdentity.dfy` has the parser with its loop, and `Metrics.dfy` the collector with its gauges.

## What the code turned out to do

* A list of reviews that fails, or comes back empty, sends even an Approved, Rejected or Started
  request back to Pending. `Sequential.FallbackExactly` gives the exact condition.
* So a rejected request can come to be run, and one that had its Job can get another.
  `Pruning.RejectedNeverRuns` excludes the first under four assumptions about the rejections of the
  request, `Pruning.AtMostOneJob` the second under the same about its approvals and one more. None of
  the four can be spared, for the one as for the other: from every state named in the lemmas,
  `Revival.FailedListRevives` breaks the one on lists, `Revival.PrunedDeciderRevives` those on the
  cache and on the decider's age, and `Revival.GhostDeciderRevives` and `Revival.GhostApproverRepeats`
  the one on deciders that are already deleted, which a cache that never goes back does not exclude.
* A review is deleted by name, and decides, from whatever form the cache served.
  `Revival.PrunesExactly`, `Revival.DecidesExactly` and `Revival.PrunedDeciderExactly` say exactly when
  it does the one or the other, and when a request falls back to Pending for it.
* Whatever is assumed, a rejected request is run only after a reconcile that held it as it was rejected
  listed its reviews and the list failed or was empty (`Revival.RevivalTraced`), and a second Job comes
  only after such a list, or when nothing was written to the request since the first
  (`Revival.RepeatTraced`).
* A Started request whose Job cannot be looked up, by one failed call, is Malformed for good while its
  Job runs on (`Recovery.StartedEndsExactly`, `Recovery.EndsForGood`).
* A review says Approved or Rejected once it has sent its decision, even if that was refused.
  `Verdicts.RefusedApproval` has a review say Approved of a request that another review rejected;
  `Verdicts.CommitExactly` and `Verdicts.VerdictExactly` say exactly when the verdict stands for a
  decision.
* An operator that is stopped, or whose update fails, after it created a Job makes a second one if the
  first is removed (`Recovery.LosesTrackExactly`, `Recovery.SecondJobExactly`,
  `Recovery.StoppedOperatorRepeats`).
* A Job that reports both outcomes has its request written Complete and then Failed, or the reverse.
  `Sequential.TwoOutcomesDescend` and `Bounds.LoopWritesOneState` give the exact condition. Each return
  to Pending costs at most three writes and each second outcome one (`Bounds.RunBounded`).
* A Job runs the init containers of its Deployment as they are, before the requested command; it runs
  nothing else exactly when there are none (`Jobs.NothingElseExactly`).
* A request that is reviewed before its first reconcile gets no state until its reviews are gone, nor
  do these get a verdict (`Progress.StuckRun`, `Progress.ReviewsOnlyRequeue`,
  `Progress.FirstStateExactly`).
* Names of reviews are shared by a namespace, so a review of one request can keep that of another from
  being created (`Locality.NamesMeet`).
* Conflicted requests have no gauge (`Metrics.RequestCountsSum`).
* The usage section of the repository's README shows a `jobName` other than the request's name; the
  code names the Job after the request, and so does the model.

## Model

| member | source | states |
|---|---|---|
| Decisions.StepRefinesAtomic | internal/controller/jobrequest_controller.go:110-176 | Refinement: every step of anybody, with any failed calls, is no effect or one allowed transition from what is stored at that moment, and the log of transitions determines the store |
| Decisions.RunIsAtomic | internal/controller/jobrequest_controller.go:338-471 | In every reachable state the log is a history of the atomic machine and determines requests and reviews |
| Invariant.StepKeepsInv | internal/controller/jobrequest_controller.go:465-471 | Every step keeps the invariant: copies in flight are current, overtaken by one decision, or behind an own update, and versions tell copies apart |
| Invariant.UpdateIsTransition | internal/controller/jobrequest_controller.go:465-471 | An operator update accepted by version is made from what is stored and is an allowed edge |
| Invariant.DecisionIsTransition | internal/controller/jobrequestreview_controller.go:313-333 | A decision accepted by version takes a stored Pending request of somebody else and leaves the review's name |
| Decisions.RereadStillStarted | internal/controller/jobrequest_controller.go:431-437 | The request read again in the Started branch is the one read before, and still Started |
| Decisions.NoLostDecision | internal/controller/jobrequest_controller.go:314-333 | A Pending update computed before a decision leaves the decided request as it is |
| Decisions.StatusTellsHistory | api/v1/jobrequest_types.go:95-113 | HasBeenApproved and HasBeenRejected mean that the last decision was so, by the review named; Started, Complete and Failed requests name their Job |
| Decisions.RunTellsHistory | internal/controller/jobrequestreview_controller.go:319-325 | In every reachable state a Rejected request was last rejected, and an Approved, Started, Complete, Failed or Conflicted one last approved, by the review it names, and one with a Job behind it names that |
| Decisions.StandsExactly | api/v1/jobrequest_types.go:95-113 | In every history HasBeenReviewed, HasBeenApproved and HasBeenRejected hold if and only if a decision, an approval or a rejection stands, with no return to Pending and no Malformed after it |
| Decisions.JobNeedsApproval | internal/controller/jobrequest_controller.go:351-384 | A Job is created only while the stored request is the Approved one that was read, after an approval of that incarnation with no other decision since |
| Decisions.TwoPersonRule | internal/controller/jobrequestreview_controller.go:293-325 | In every run each Job is preceded by an approval of that incarnation, and requester and approver are two users by the texts of their annotations |
| Decisions.SelfReviewConflicts | internal/controller/jobrequestreview_controller.go:240-317 | A review of a Pending request gets Conflict if and only if one user is named by both annotations, of whichever kind and under whichever roles, accounts, regions and sessions |
| Decisions.OthersDecide | internal/controller/jobrequestreview_controller.go:293-325 | It goes on to the decision if and only if they name two users |
| Decisions.DecidersAreOthers | internal/controller/jobrequestreview_controller.go:293-308 | In every history every committed decision is between two users |
| Decisions.FirstDecisionWins | internal/controller/jobrequestreview_controller.go:357-431 | Two decisions on one incarnation have a return to Pending between them |
| Decisions.LosingReviewsChangeNothing | internal/controller/jobrequestreview_controller.go:395-431 | A step of a review reconcile decides its Pending target or leaves every request as it is, version and ReviewName included |
| Decisions.VerdictOnce | internal/controller/jobrequestreview_controller.go:99-107 | A review goes from no state to one of five verdicts once, whatever form the cache served |
| Verdicts.CommitExactly | internal/controller/jobrequestreview_controller.go:319-333 | The update a review sends is the last decision on its request if and only if it is not lost and made from the stored version; else the requests stay as they are |
| Verdicts.RefusedApproval | internal/controller/jobrequestreview_controller.go:325-345 | From every state in which one review would reject a request and another approve it, a run ends with the request Rejected by the first and the second saying Approved |
| Verdicts.DecidedExactly | internal/controller/jobrequestreview_controller.go:319-333 | In every run a review has decided if and only if an update it sent was applied |
| Verdicts.VerdictExactly | internal/controller/jobrequestreview_controller.go:335-345 | In every run a review that says Approved or Rejected says what it carries and has sent it, and the history has that decision on its request if and only if an update it sent was applied |
| Jobs.TargetContainersExactly | internal/controller/jobrequest_controller.go:300-312 | The Job has as many containers as the Deployment has of the wanted name, each in the place its rank among them says, with the requested command and args and otherwise unchanged |
| Jobs.OnlyTargets | internal/controller/jobrequest_controller.go:303-309 | No other container is among them and none has another command or other args |
| Jobs.SomethingToRun | internal/controller/jobrequest_controller.go:262-275 | The template is refused exactly when no container has the wanted name |
| Jobs.JobForRunsRequest | internal/controller/jobrequest_controller.go:277-298 | A template that is made is owned by the request, never restarts or retries, carries no labels, has only wanted containers with the requested command, and takes over init containers and the rest unchanged |
| Jobs.NothingElseExactly | internal/controller/jobrequest_controller.go:280-281 | All that the Job runs are those containers if and only if the Deployment has no init containers |
| Jobs.OnlyApprovedRuns | internal/controller/jobrequest_controller.go:351-366 | In every run, when a Job is created it is made for the very request, spec included, that somebody else approved, with its command in every container but the init containers |
| Jobs.JobComesFrom | internal/controller/jobrequest_controller.go:234-241 | In every run that Job has the init containers, the wanted containers and the rest of the Deployment that was stored under the request's namespace and the name in its spec when the same reconcile listed it |
| Jobs.NewJobIsLogged | internal/controller/jobrequest_controller.go:366-366 | No Job comes into being or changes but by the cluster or by a creation in the log |
| Jobs.StartedAfterJob | internal/controller/jobrequest_controller.go:366-382 | In every run a request is written Started only after a Job was created for it as it then was, Approved and at that version |
| Bounds.OnlyFallbackDescends | internal/controller/jobrequest_controller.go:314-336 | The only writes that do not raise the rank are the operator's return of a decided request to Pending and the second of two outcomes |
| Bounds.LoopWritesOneState | internal/controller/jobrequest_controller.go:439-457 | The loop over the conditions writes a single state if and only if they do not report both outcomes |
| Bounds.FinalStatesFrom | internal/controller/jobrequest_controller.go:439-457 | The loop writes Complete if and only if a true Complete condition is there, Failed likewise, and nothing else |
| Bounds.StepClimbs | internal/controller/jobrequest_controller.go:345-462 | With reviews listed and one outcome a Job, every step's write raises the rank |
| Bounds.RoomBound | internal/controller/jobrequest_controller.go:345-462 | In every history the writes to requests and the ranks still open to those stored are at most four for each request created, three for each return to Pending and one for each second outcome |
| Bounds.RunBounded | internal/controller/jobrequest_controller.go:345-462 | So every run makes at most that many writes, and one more for each review |
| Bounds.SteadyRunBounded | internal/controller/jobrequest_controller.go:345-462 | A run with reviews listed and one outcome a Job has neither of the two: at most four states are written per request created and one per review |
| Pruning.EmptyListMeansExpired | internal/controller/jobrequest_controller.go:326-333 | A rejected request with no listed review is past its own lifetime, if those that rejected it were in time and the cache is not behind them; the same of an approved one and its approvers |
| Pruning.DueStaysDue | internal/controller/jobrequest_controller.go:80-108 | A request past its lifetime whose reconcile, if any, has yet to check its age stays so under every step of anybody until it is deleted |
| Pruning.DecidersNeverPrunedEarly | internal/controller/jobrequestreview_controller.go:74-97 | In a run calm for the rejections of a request no review that rejected it is deleted before its time; the same of approvals |
| Pruning.RejectedNeverRuns | internal/controller/jobrequest_controller.go:80-108 | In a run calm for the rejections of a request no Job is created for an incarnation of it after it was rejected, whatever happens to its approvals and whatever fails or lags for other requests |
| Pruning.AtMostOneJob | internal/controller/jobrequest_controller.go:351-384 | In a run calm for the approvals of a request, in which the operator does not lose track of its Job, an incarnation of it gets at most one, even if Jobs are removed at any time and whatever fails for other requests |
| Revival.PrunesExactly | internal/controller/jobrequestreview_controller.go:74-97 | An undisturbed review reconcile deletes a stored review if and only if the form it began from is past its lifetime, however young the stored one |
| Revival.EarlyPruneIsStale | internal/controller/jobrequestreview_controller.go:74-97 | A review deleted before its time is deleted from a form of an incarnation before it |
| Revival.DecidesExactly | internal/controller/jobrequestreview_controller.go:313-345 | An undisturbed review reconcile changes a request if and only if the form it began from is young, undecided and decides it, and then by that decision, whether or not the review is still stored |
| Revival.PrunedDeciderExactly | internal/controller/jobrequestreview_controller.go:74-97 | After a review reconcile from any form, the next reconcile sends a decided request in order back to Pending if and only if it lists no review, or only that one and the form is past its lifetime |
| Revival.PrunedDeciderRevives | internal/controller/jobrequestreview_controller.go:74-97 | From every state where a form past its lifetime may be served, a decided request without a Job whose only listed review has that name is approved anew and run, though it was rejected, or had its Job before |
| Revival.GhostDeciderRevives | internal/controller/jobrequestreview_controller.go:181-206 | From every state where a review already deleted may be served, it rejects its request, which is then approved anew and run |
| Revival.GhostApproverRepeats | internal/controller/jobrequestreview_controller.go:181-206 | From every state where a review already deleted may be served that approves its request, while the one review listed is due, the request gets a Job, and a second once both are gone |
| Revival.FailedListRevives | internal/controller/jobrequest_controller.go:321-324 | From every state with a decided request in order and no Job, one failed list lets another review approve it and a Job be created, though it was rejected, or had its Job before |
| Revival.RevivalNeedsReturn | internal/controller/jobrequest_controller.go:314-336 | In every history a Job for an incarnation rejected before comes after its return to Pending, as it was rejected, and a new approval |
| Revival.RevivalTraced | internal/controller/jobrequest_controller.go:314-336 | In every run such a return goes back to a list of its reviews, made by a reconcile that held the request as it was rejected, which failed or was empty |
| Revival.RepeatNeedsReturn | internal/controller/jobrequest_controller.go:351-384 | In every history two Jobs for one incarnation have its return to Pending between them, or no write to it at all |
| Revival.RepeatTraced | internal/controller/jobrequest_controller.go:351-384 | In every run that return goes back to a list that failed or was empty |
| Forms.StepKeepsOrdered | internal/controller/jobrequestreview_controller.go:232-238 | Every step keeps the stored form of a review the newest of its name and an undecided one the first of its incarnation |
| Forms.UndecidedIsOnlyForm | internal/controller/jobrequestreview_controller.go:181-197 | While a review is undecided the cache has no other form of it to serve |
| Sequential.WholeIsBigStep | internal/controller/jobrequest_controller.go:56-177 | An undisturbed JobRequest reconcile is one big step, given branch by branch without the calls in between |
| Sequential.RequestIdempotent | internal/controller/jobrequest_controller.go:56-177 | From every state, doing it twice leaves the store as doing it once |
| Sequential.FallbackExactly | internal/controller/jobrequest_controller.go:314-336 | A current request not Pending goes back to Pending if and only if its list of reviews fails or is empty |
| Recovery.LosesTrackExactly | internal/controller/jobrequest_controller.go:366-384 | Between creating the Job and saying so, the request stays Approved with nobody about to say so if and only if the step stops its reconcile or fails its update |
| Recovery.SecondJobExactly | internal/controller/jobrequest_controller.go:351-384 | An undisturbed reconcile of an Approved request creates a Job if and only if none is there and the request is in order, young and reviewed |
| Recovery.StoppedOperatorRepeats | internal/controller/jobrequest_controller.go:352-380 | From every state where the Job of an incarnation was made and not yet shown, losing track and removing the Job puts a second Job for it in the log |
| Sequential.ExistingJobStays | internal/controller/jobrequest_controller.go:352-398 | While a Job exists and nobody else touches it, no step creates another of its name or changes it |
| Recovery.RecoveryExactly | internal/controller/jobrequest_controller.go:352-398 | A reconcile that read Approved, finds the request young and in order, lists a review and has its calls answered ends Conflicted if and only if the Job is there as it looks it up, whatever others do between its calls |
| Recovery.RecoveryEndsConflicted | internal/controller/jobrequest_controller.go:390-398 | So it does while the Job it lost track of is left alone, changing nothing else about the request |
| Recovery.StartedEndsExactly | internal/controller/jobrequest_controller.go:412-459 | A reconcile that read Started, finds the request young and in order and lists a review ends Malformed if and only if the look-up of its Job fails or finds none, and else in the last outcome that Job reports, whatever others do between its calls |
| Recovery.LastOutcomeExactly | internal/controller/jobrequest_controller.go:439-457 | The state written last is that of the last condition that reports an outcome, and none is written if and only if none does |
| Recovery.EndsForGood | internal/controller/jobrequest_controller.go:110-122 | No step of anybody changes a Malformed or Conflicted request, but for its delete |
| Sequential.TwoOutcomesDescend | internal/controller/jobrequest_controller.go:439-457 | A reconcile of a Started request keeps climbing if and only if its Job does not report both outcomes |
| Sequential.FoundIsDeserved | internal/controller/jobrequestreview_controller.go:357-455 | What a review does about the request it finds is the verdict it deserves, given by whether it decides, and else by what is wrong |
| Sequential.ReviewFromIsBig | internal/controller/jobrequestreview_controller.go:51-152 | An undisturbed review reconcile, from any form the cache serves, is one big step: the delete if that form is past its lifetime, else the decision if it decides, and the deserved verdict if it is the form stored |
| Sequential.WholeIsBigReview | internal/controller/jobrequestreview_controller.go:51-152 | From a fresh cache the verdict is always stored |
| Sequential.ReviewIdempotent | internal/controller/jobrequestreview_controller.go:51-152 | From every state, doing it twice leaves the store as doing it once |
| Endings.ScheduledEnds | internal/controller/jobrequest_controller.go:56-471 | Every JobRequest reconcile, whatever others do between its calls and however these end: what is removed, written or created, from the age, the four final states, the annotation, the Deployment, the reviews and the Job that its calls meet |
| Endings.FromApproved | internal/controller/jobrequest_controller.go:351-399 | The Approved branch for every outcome of its calls: Conflicted if the Job is found, nothing if the look-up fails, else the Job is created and the request Started if and only if that was answered and none was there, else Malformed |
| Endings.CreationExactly | internal/controller/jobrequest_controller.go:366-382 | After the call that creates the Job the request is Started if and only if it was answered and no Job was there, else Malformed, whatever others do |
| Endings.FailedLookUp | internal/controller/jobrequest_controller.go:385-388 | A look-up that errs changes no request and ends the reconcile |
| Endings.FromStarted | internal/controller/jobrequest_controller.go:412-459 | The Started branch for every outcome of its calls, updates that fail or are applied unnoticed in the loop included |
| Endings.TargetExactly | internal/controller/jobrequest_controller.go:234-275 | The Deployment looked up is that of the request's namespace and the name in its spec, and it is Malformed if and only if that is not stored or has no container of the name in the spec |
| Endings.RemovedExactly | internal/controller/jobrequest_controller.go:80-108 | A reconcile that has read a request removes it if and only if it finds it past its lifetime and the delete has its effect, whatever others do |
| Endings.DeletingExactly | internal/controller/jobrequest_controller.go:80-83 | The delete removes the request and nothing else, if and only if the call has its effect |
| Endings.PrunesRequestExactly | internal/controller/jobrequest_controller.go:80-83 | An undisturbed reconcile removes a stored request if and only if it is past its lifetime, and leaves every other request, review and Job as it was |
| Endings.WholeEndsExactly | internal/controller/jobrequest_controller.go:110-463 | The status and the Job in the end of an undisturbed reconcile of a young request, state by state |
| ReviewEndings.ScheduledReviewEnds | internal/controller/jobrequestreview_controller.go:51-455 | Every review reconcile, from any form the cache serves, whatever others do between its calls and however these end: what is deleted, decided and said |
| ReviewEndings.FromFinding | internal/controller/jobrequestreview_controller.go:199-455 | The same from the look-up of the request on: an error ends it, a missing request is NotFound, and the rest goes by the request's state, the two annotations and the review it names |
| ReviewEndings.FromCommitting | internal/controller/jobrequestreview_controller.go:313-355 | The decision is stored if and only if the call has an effect and the request is the one found, and the verdict is sent in any case |
| Schedule.ScheduledIsRun | internal/controller/jobrequest_controller.go:473-478 | A JobRequest reconcile met by any steps of others between its calls is part of a run |
| Schedule.ScheduledReviewIsRun | internal/controller/jobrequestreview_controller.go:457-462 | The same for a review reconcile and any cached form |
| Schedule.ScheduledKeepsInv | internal/controller/jobrequest_controller.go:56-177 | A reconcile on any schedule keeps the invariant of runs |
| Schedule.ScheduledReviewKeepsInv | internal/controller/jobrequestreview_controller.go:51-152 | The same for a review reconcile and any cached form |
| Schedule.AloneIsBigStep | internal/controller/jobrequest_controller.go:56-177 | With nobody about and no failing calls, the scheduled reconcile is the big step |
| Schedule.AloneIsBigReview | internal/controller/jobrequestreview_controller.go:51-152 | The same for a review reconcile |
| Progress.FromRequestToResult | internal/controller/jobrequest_controller.go:345-462 | Undisturbed, every new request in order that another user approves gets its Job and ends in the outcome the Job reports, Complete or Failed, naming Job and review |
| Progress.RequestFiledAsAsked | api/v1/jobrequest_types.go:79-92 | A request is stored with the annotation and spec given, without a status, as a new incarnation created now |
| Progress.ReviewFiledAsAsked | api/v1/jobrequestreview_types.go:57-74 | So is a review |
| Progress.StuckStaysStuck | internal/controller/jobrequest_controller.go:335-336 | A stateless request in order with a listed review stays as it is under every step of both controllers |
| Progress.StuckRun | internal/controller/jobrequest_controller.go:460-461 | The same for whole runs in which it stays in order, young and reviewed |
| Progress.ReviewsOnlyRequeue | internal/controller/jobrequestreview_controller.go:359-367 | In a run in which the request stays stateless, its valid young reviews whose reconciles are not yet writing stay undecided and unchanged, if the cache serves no earlier review of their name |
| Progress.FirstStateExactly | internal/controller/jobrequest_controller.go:326-336 | An undisturbed reconcile makes a stateless request in order Pending if and only if it has no review yet |
| Locality.StepInView | internal/controller/jobrequestreview_controller.go:199-206 | Seen from one request, a step that concerns it is the same step, and any other is nothing |
| Locality.RunInView | internal/controller/jobrequest_controller.go:314-343 | Seen from one request, with its reviews, Job and history, a run is the run restricted to its steps, however names are used among other requests |
| Locality.NamesMeet | internal/controller/jobrequest_controller.go:315-319 | A review of one request keeps that of another under the same name from being created |
| Commuting.StepsCommute | internal/controller/jobrequest_controller.go:314-343 | Steps that by their footprints in the state share no request and no review name commute: same store, same reconciles in flight, and each logs the same |
| Controllers.JobRequestReconciler.Reconcile | internal/controller/jobrequest_controller.go:56-177 | A whole reconcile does what the protocol does on the schedule it meets, whatever others do and whichever calls fail, and ends as the age, state, annotation, Deployment, reviews and Job met say |
| Controllers.JobRequestReconciler.ValidateRequestedByAnnotation | internal/controller/jobrequest_controller.go:179-204 | True if and only if the annotation names a user; else Malformed is written and the reconcile is over |
| Controllers.JobRequestReconciler.GetTargetResource | internal/controller/jobrequest_controller.go:234-257 | The Deployment stored, as the list is made, in the request's namespace under the name in its spec; none ends Malformed and an error ends without a write |
| Controllers.JobRequestReconciler.CreateJobTemplate | internal/controller/jobrequest_controller.go:259-298 | The Job for the Deployment, or Malformed written from a copy of the request |
| Controllers.RetrieveContainerFromResource | internal/controller/jobrequest_controller.go:300-312 | The loop collects the target containers |
| Controllers.JobRequestReconciler.CalculateState | internal/controller/jobrequest_controller.go:314-336 | Pending if and only if the list fails or is empty as it is made or Pending is held, else the state held |
| Controllers.JobRequestReconciler.HandleState | internal/controller/jobrequest_controller.go:338-463 | Every state is handled to the end of the reconcile, on the protocol's course |
| Controllers.JobRequestReconciler.HandleApproved | internal/controller/jobrequest_controller.go:351-399 | The Approved branch to the end, for every outcome of its calls: Conflicted, nothing, or the Job created and Started or Malformed by whether that was answered |
| Controllers.JobRequestReconciler.HandleStarted | internal/controller/jobrequest_controller.go:412-459 | The Started branch to the end, for every outcome of its calls: Malformed, nothing, or the state the loop over the conditions leads to |
| Controllers.JobRequestReconciler.SetState | internal/controller/jobrequest_controller.go:465-471 | The state changes in memory and the update is sent; a refusal is swallowed |
| Controllers.JobRequestReviewReconciler.Reconcile | internal/controller/jobrequestreview_controller.go:51-152 | A whole review reconcile does what the protocol does, however stale the cache, and ends as the form served and the request met say |
| Controllers.JobRequestReviewReconciler.ValidateReviewedByAnnotation | internal/controller/jobrequestreview_controller.go:154-179 | True if and only if the annotation names a user; else Malformed is written |
| Controllers.JobRequestReviewReconciler.GetJobRequest | internal/controller/jobrequestreview_controller.go:199-230 | The request stored, as the list is made, in the review's namespace under the name it gives; none ends NotFound, an error ends without a write |
| Controllers.JobRequestReviewReconciler.SetState | internal/controller/jobrequestreview_controller.go:232-238 | The verdict changes in memory and the update is sent; a refusal is swallowed |
| Controllers.JobRequestReviewReconciler.ValidateReviewerAndRequesterDiffer | internal/controller/jobrequestreview_controller.go:240-311 | Succeeds if and only if the texts of the annotations name two users, GDS users or Entra ID; else the verdict is written and the reconcile is over |
| Controllers.JobRequestReviewReconciler.HandleReviewDecision | internal/controller/jobrequestreview_controller.go:313-355 | The decision is sent, then the review's own verdict whether or not it was accepted |
| Controllers.JobRequestReviewReconciler.HandleState | internal/controller/jobrequestreview_controller.go:357-455 | Every state of the request is handled to the end of the reconcile |
| Controllers.Cluster.UpdateStatus | internal/controller/jobrequest_controller.go:465-471 | Succeeds if and only if answered and made from the stored version; then memory holds the stored object, else it keeps its unsaved status |
| Controllers.Cluster.GetReview | internal/controller/jobrequestreview_controller.go:181-197 | A reconcile starts from whatever form the cache serves, or not at all |
| UserIdentity.ParseUserIdentityFromARN | api/v1/user_identity.go:24-51 | The method with its early returns computes the specified parse |
| UserIdentity.ParseGdsUsersARN | api/v1/user_identity.go:70-81 | The search through the table finds the first listed suffix |
| UserIdentity.AcceptsExactly | api/v1/user_identity.go:24-68 | The texts accepted are exactly the joined well-formed fields whose role ends in a listed suffix or whose session holds an '@' |
| UserIdentity.FieldsOf | api/v1/user_identity.go:25-37 | The parts of an accepted text are well-formed and joining them rebuilds it |
| UserIdentity.ParseOfRender | api/v1/user_identity.go:24-51 | Round trip: well-formed fields, joined and parsed, give the identity of their role and session |
| UserIdentity.RenderInjective | api/v1/user_identity.go:25-37 | A text has one reading as fields |
| UserIdentity.GdsExactly | api/v1/user_identity.go:70-81 | A role is a GDS user's if and only if a listed suffix ends it, and is then user name, dash and role name |
| UserIdentity.IdentityFromExactly | api/v1/user_identity.go:39-50 | When role and session give an identity, and which: GDS users first, then Entra ID |
| UserIdentity.TableOrderIrrelevant | api/v1/user_identity.go:9-16 | At most one listed suffix ends a text, so the order of the table does not matter |
| UserIdentity.SameUserUnderEveryRole | api/v1/user_identity.go:70-81 | A user keeps one user name under every listed role, region, account and session |
| UserIdentity.UserNameOf | api/v1/user_identity.go:70-81 | The user, account and role read from a listed-role ARN are those it was made of |
| UserIdentity.UserExactly | api/v1/user_identity.go:24-92 | An annotation is read as a user if and only if it is the text of well-formed fields that name that user: before the dash and listed role name, or else as the session with an '@' |
| UserIdentity.IdentityExactly | api/v1/user_identity.go:24-51 | An annotation is accepted if and only if it is there and names somebody |
| UserIdentity.DifferentExactly | internal/controller/jobrequestreview_controller.go:293-308 | Two annotations pass for different people if and only if they name two users |
| UserIdentity.DifferentByName | internal/controller/jobrequestreview_controller.go:293-308 | For well-formed fields that name users, of the same kind or not, that is if and only if the names differ, whatever the accounts, regions and roles |
| UserIdentity.AccountExactly | api/v1/user_identity.go:58-67 | An account is recognised by twelve first characters out of the ten digits |
| UserIdentity.RenderIs | api/v1/user_identity.go:25-37 | The text of the fields, written out |
| Strings.SplitJoins | api/v1/user_identity.go:25-25 | Capped splitting loses nothing |
| Strings.SplitFree | api/v1/user_identity.go:25-30 | Fewer pieces than the cap means no separator is left in any |
| Strings.JoinSplits | api/v1/user_identity.go:25-30 | Pieces free of the separator come back from their join |
| Metrics.TallyResourceState | internal/metrics/collector.go:153-161 | Each total grows by the number of items in its state |
| Metrics.MetricCollector.EmitRequestMetrics | internal/metrics/collector.go:75-94 | Each of the seven request gauges takes the total of its own state, in whatever order the map is ranged over, and no review gauge changes |
| Metrics.MetricCollector.EmitReviewMetrics | internal/metrics/collector.go:106-121 | Each of the five review gauges likewise |
| Metrics.MetricCollector.Collect | internal/metrics/collector.go:39-63 | After a successful collect each of the twelve gauges is the number of listed items with its state in their status, whatever it was before; if a listing fails none changes |
| Metrics.CountsRequests | internal/metrics/collector.go:145-147 | The tally of a state is the number of places in the list whose request has it in its status |
| Metrics.CountsReviews | internal/metrics/collector.go:149-151 | The same for reviews |
| Metrics.RequestCountsSum | internal/metrics/collector.go:123-133 | Gauges, Conflicted, stateless and unlisted requests add up to the list |
| Metrics.ReviewCountsSum | internal/metrics/collector.go:135-143 | Gauges, undecided and unlisted reviews add up to the list |

## Left out

- Controllers.JobRequestReconciler.Reconcile: returns no requeue interval or error, because when the work queue calls again is not modelled; any later start is a step.
- Controllers.JobRequestReviewReconciler.Reconcile: the same.
- Pruning.RejectedNeverRuns: holds for runs that are calm for the rejections of the request: lists of its reviews succeed while it is Rejected, a review that rejects it is no older than it and not already deleted before its time, and the cache serves no form older than such a review under its name afterwards. Module Revival shows for each what happens without it.
- Pruning.AtMostOneJob: holds for runs that are calm for its approvals, where the list matters only while it is Started, and in which the operator is not stopped, nor its update failed, between creating the Job and saying so. These are the steps that lose track of a Job (Recovery.LosesTrackExactly), and with them there can be two (Recovery.StoppedOperatorRepeats); while the first Job exists Sequential.ExistingJobStays and Recovery.RecoveryEndsConflicted hold without it.
- Bounds.SteadyRunBounded: assumes that Jobs report one outcome and that a decided request finds its reviews; Bounds.RunBounded is the bound without that.
- Recovery.StartedEndsExactly: the calls other than the look-up of the Job are answered; Endings.FromStarted is the same for every outcome.
- Locality.RunInView: the names used for reviews of the request viewed are not used for reviews of others; without that two requests meet in the name (Locality.NamesMeet).
- Progress.ReviewsOnlyRequeue: a cache that still serves an earlier review of the same name could have it deleted by name, so that is excluded.
- Jobs.JobComesFrom: the Deployment is the one stored when the reconcile listed it, which need not be the one stored when the Job is created.
- Controllers.Cluster.GetReview: a form the review never had is answered as not found, and so is a failing cache read.
- Logging, events and Prometheus counters inside the reconcilers: they do not touch the store.
- Failure of SetControllerReference (internal/controller/jobrequest_controller.go:288-295): the Job is newly made in the request's namespace.
- Requests and reviews deleted or edited by others: users may only create and get, and specs and annotations are fixed once created.
- Texts outside the enumerations of decisions: the resource definition admits two.
- An update that changes nothing is taken to leave the version as it is, as the API server does.
- Unlisted request states: kept in the type for the default branches; no reachable state has one.
- Pod and Deployment fields other than init containers and container name, command, args, restart policy, labels and annotations: one text stands for the rest.
- Gauges and totals are floating-point numbers in the source; counts are whole, so naturals are used.
- The ticker of the collector, manager start-up, flags, leader election, health checks and scheme registration.
- Kubernetes client internals, cache resync, garbage collection and queue timing: an abstract store and nondeterministic steps stand for them.
