# Kernel Sentinel: verified models

Dafny models of the parts of Kernel Sentinel whose mistakes would be expensive: the
controller that rolls back a production deployment on its own, the tamper-evident log it
leaves behind, the process table and evidence graph its inputs pass through, and the
arithmetic and decision rules that decide whether anything happens at all.

| file | models |
|---|---|
| `Autonomy.dfy` | controller settings, its scan loops, one cycle's inputs, and the protocol a cycle follows |
| `Endings.dfy` | how a cycle ends and which images it leaves, as functions of its inputs |
| `Criteria.dfy` | the controller's guards, thresholds and defaults in plain numbers |
| `Histories.dfy` | what the protocol implies for the requests, audit trails, samples and spacing of cycles and histories |
| `Controller.dfy` | the controller class, proved to keep the protocol, to remember its history, and to ask server and auditor exactly what the history says |
| `Incidents.dfy` | one concrete outage on which a new controller is run |
| `Kubernetes.dfy` | the Kubernetes client, optimistic concurrency and strategic merge, rollback targets, label selectors |
| `Revisions.dfy` | revision annotations as printed numbers, and rollback targets in terms of them |
| `AuditChain.dfy` | the MAC-chained log: writer, resume, checker |
| `AuditedHistories.dfy` | the controller's trail written through the chain |
| `Process.dfy` | process table, lineage walk, rule matching |
| `Evidence.dfy` | evidence graph and its ordered snapshot |
| `Slo.dfy` | the two error-budget evaluators |
| `Decision.dfy` | reasoner, governor and engine |
| `Ordering.dfy`, `Prelude.dfy` | sorting as the Go code relies on it; shared datatypes |

`dafny verify dfyconfig.toml` checks everything.

## How the controller is modelled

A cycle receives an `Env`: the clock reading, every query result (or its failure), and for
every request to the API server a `Wire`, which says what other clients write before the
request is handled and whether the request is answered, refused, lost, or applied with its
reply lost. The API server keeps one deployment whose resource version moves with every
write; a patch naming another version is a conflict, and a patch of images is a merge of the
container list by name. All theorems quantify over every `Env`.

The server, not the controller, keeps the record of what it was asked: `ApiServer` appends
each exchange (request, its `Wire`, the deployment before and after, and whether the client
got a good answer) to a ghost log, and its invariant says that the stored deployment is what
these exchanges and the outside writes they name made of it. In the same way the auditor is a
real `AuditChain.Chain`, and the state of its file shows which appends were made.

The controller logs its steps as ghost events (sample, audit call, rollback patch, wait,
undo); a patch event carries its exchange. `Autonomy.May` says which step may follow which,
with which request, on which deployment. `Controller.Valid` says three things: the remembered
fields are functions of the logged history; every cycle in it kept the protocol; and the
patches the server handled and the appends the auditor made are exactly those of the history,
in order. `RunOnce` preserves it, so it holds in every reachable state, and adds that the
deployment it leaves is `Now` of its events. A request that was not logged, or an event
without its request, breaks the invariant. The lemmas in `Endings.dfy` and `Histories.dfy`
then speak about arbitrary cycles and histories.

Between the exchanges others may write what they like, status included. Only where final
images are concerned is something asked of them (`OthersKeepImages`): that they leave the
original images in place up to the patch and the previous ones after it. These
cases are inhabited: `FirstCycle` runs the controller to a remediation, a lost reply and a
cancellation with a status write in between.

Definitions are not left to themselves: `Criteria.dfy` and lemmas beside the definitions say in
plain numbers, or field by field, what guards, thresholds, defaults, parsed revisions, MAC
coverage, table entries, confidences, budgets and orders amount to.

The `audit` helper drops errors, and drops everything when no auditor is set
(controller.go:397-401); so does the model. The log holds the whole trail exactly when every
append landed (`RecordedActions`).

## What the proofs turned up

- A rollback whose reply is lost stays applied: the cycle reports an error with `Executed`
  false, verifies nothing and compensates nothing (controller.go:304-306). Cancellation
  during the verify delay also leaves the rollback in place (controller.go:317-320).
  `FirstCycle` shows both on concrete inputs. `PreviousRemain` is the exact condition, over
  settings, environment and, for rollout status, the deployment as read: after an attempt the previous images remain exactly when the
  patch applied at the planned version and its reply was lost; or it was answered, and either
  the rollout completed and the cycle was then cancelled or verified, or else the undo chain
  (read, dry run, read, patch) did not take effect (`ImagesLeft`).
- One appended line of 64 KiB or more makes the log unverifiable and every later `New` fail:
  writing has no limit, while the checker's scanner does (`OversizedLineLocksOut`).
- `Evaluate` and `EvaluateErrorRate` disagree about exhaustion on a narrow band around the
  allowance; `DisagreeIff` is the exact condition, `BandIsReal` an input. Once the allowance
  rounds to zero, `Evaluate` never reports exhaustion, however many events are bad
  (`TinyAllowanceIsSilent`, with the input in `TinyAllowanceIsReal`).
- A label selector can be read back exactly when no key holds a comma or an equals sign and no
  value a comma (`SelectorRoundTrip`); otherwise different maps can print alike
  (`SelectorCollision`).
- A revision annotation that is not a number reads as 0; but when its leading digits outgrow 64
  bits it reads as the greatest integer, whatever follows them (`AtoiOfTail`, `AtoiOfText`).
- The governor's list of rejected shortcuts says production is not mutated on a single
  signal (governor.go:21-25). The code does not check that; `SingleSignalPasses` gives the
  exact condition under which one detection passes. The model follows the code.

## Model

| member | source | states |
|---|---|---|
| Controllers.Controller.RunOnce | cortex/internal/autonomy/controller.go:133-345 | For every environment the cycle extends a lawful history, and memory, server log and auditor file keep up with it; verdict or error are the ending the inputs determine, a remediation exactly when a confirmed, rolled-out and uncancelled rollback has its new error rate within the objective and its new latency at most six fifths of the old; it attempts a rollback exactly when all guards hold and the dry run was answered at the planned version, and counts it as executed exactly when the patch was, too; the server handled exactly the logged requests and the deployment is as they left it; without an attempt it is as read, or as others left it before the dry run, and when others keep the images it ends with the previous ones exactly when an attempt remains |
| Controllers.Controller.Cycle | cortex/internal/autonomy/controller.go:133-155 | Invalid settings, missing providers and a protected namespace each end the cycle in their own way, with memory, deployment and server log as they were |
| Controllers.Controller.PlanAndConsider | cortex/internal/autonomy/controller.go:156-165 | Having no earlier revision, and only that, is an audited observation; a failed read, and only that, is an error without audit entry; otherwise the plan is the right one for the deployment as read |
| Controllers.Controller.Consider | cortex/internal/autonomy/controller.go:166-180 | A revision that is too old, from the future or undated, a running cooldown, and a failed query each end the cycle with the streak untouched |
| Controllers.Controller.SampleAndDecide | cortex/internal/autonomy/controller.go:181-192 | After a sample the streak counter is again the longest bad suffix of the sample history |
| Controllers.Controller.CountSample | cortex/internal/autonomy/controller.go:182-192 | The counter moves to the streak of the history one sample longer |
| Controllers.Controller.Correlate | cortex/internal/autonomy/controller.go:196-257 | The accumulated confidence is the capped sum of the shares whose evidence was really obtained |
| Controllers.Controller.Decide | cortex/internal/autonomy/controller.go:238-288 | Budget, persistence, confidence, replica and image gates each stop the cycle on their own audit entry, with nothing sent to the server |
| Controllers.Controller.Act | cortex/internal/autonomy/controller.go:289-301 | The dry run is sent, with the planned version and the previous images; rejected, or with execution disabled, it is the only request of the cycle and the cooldown does not start |
| Controllers.Controller.Apply | cortex/internal/autonomy/controller.go:302-309 | The cooldown starts with the attempt whatever becomes of it; exactly one real patch is sent, and what it did is what the server did with it |
| Controllers.Controller.CheckRollout | cortex/internal/autonomy/controller.go:310-345 | The rollback is kept only when rolled out and within its postconditions, undone otherwise, and left in place on cancellation; the deployment is as polls and requests left it |
| Controllers.Controller.Measure | cortex/internal/autonomy/controller.go:324-338 | Verified exactly when the new rate is known and within the objective and latency, where known before and after, is at most six fifths of the old (`Criteria.RemediationCriterion`) |
| Controllers.Controller.Compensate | cortex/internal/autonomy/controller.go:347-351 | Every compensation is announced and dry-run first, on a freshly read version; a failed dry run ends the cycle with an error and no real patch |
| Controllers.Controller.Restore | cortex/internal/autonomy/controller.go:352-360 | The compensating patch is sent with the original images and a freshly read version, and success is reported exactly when the server answered it well |
| Controllers.Controller.ReadPlan | cortex/internal/autonomy/controller.go:156-164 | A plan exists exactly when both reads succeed and an earlier revision does, and describes the deployment as read |
| Controllers.Controller.SendRollback | cortex/internal/autonomy/controller.go:289-306 | One exchange with the planned version and the previous images reaches the server, and the answer is its answer |
| Controllers.Controller.AwaitRollout | cortex/internal/autonomy/controller.go:310-314 | True exactly when an answered poll sees the patched deployment rolled out; nothing but polls in between |
| Controllers.Controller.SendUndo | cortex/internal/autonomy/controller.go:349-354 | A read and, when it is answered, one exchange with that version and the original images reach the server |
| Controllers.Controller.Audit | cortex/internal/autonomy/controller.go:397-401 | The auditor is asked for exactly this append, and its failure changes nothing but the file |
| Controllers.EveryPatchIsJustified | cortex/internal/autonomy/controller.go:150-360 | In every reachable state, each real patch the server has handled belongs to a cycle whose guards held and comes right after an accepted dry run of the same images |
| Endings.Knowledge | cortex/internal/autonomy/controller.go:133-360 | Each step a cycle reaches determines what its environment and memory were like, and the deployment before the patch is the planned one |
| Endings.EndingIsDetermined | cortex/internal/autonomy/controller.go:133-360 | Verdict or error of a finished cycle are a function of settings, readings, memory and the fate of its requests |
| Endings.AttemptsIff | cortex/internal/autonomy/controller.go:150-304 | A finished cycle attempted a rollback exactly when every guard held and the dry run was answered at the planned version |
| Endings.ExecutedIff | cortex/internal/autonomy/controller.go:302-309 | A rollback counts as executed exactly when the real patch was answered at the planned version, too |
| Endings.Untouched | cortex/internal/autonomy/controller.go:133-301 | Without an attempt the deployment is as read, or as others left it before the dry run |
| Endings.ImagesLeft | cortex/internal/autonomy/controller.go:302-360 | When others keep the images, a cycle leaves the previous ones exactly when it attempted a rollback that remains, by a condition on the cycle's inputs alone, and the original ones otherwise |
| Endings.StatusDecides | cortex/internal/kubernetes/client.go:235-255 | Whether polling succeeds depends on rollout status only, not on version or containers |
| Criteria.DefaultValues | cortex/internal/autonomy/controller.go:42-67 | The value each unset field gets, durations in nanoseconds; set fields stay |
| Criteria.ProtectedByDefault | cortex/internal/autonomy/controller.go:64-66 | Without a list exactly the three system namespaces are protected; an empty list protects nothing |
| Criteria.StartCriteria | cortex/internal/autonomy/controller.go:69-80 | Which settings count as invalid, and that absent providers end the cycle |
| Criteria.RecentCriterion | cortex/internal/autonomy/controller.go:166-170 | Deploy correlation in nanoseconds: dated, not from the future, at most the allowed age, saturation included |
| Criteria.RestedCriterion | cortex/internal/autonomy/controller.go:171-175 | The cooldown in nanoseconds |
| Criteria.ExhaustedCriterion | cortex/internal/autonomy/controller.go:181-192 | The sampled budget is exhausted exactly from an error rate of one minus the objective on |
| Criteria.ConfidencePoints | cortex/internal/autonomy/controller.go:238-257 | Confidence in whole percent: 55, and 20, 10, 10, 5, 3 and 2 for the pieces of evidence, at most 99 |
| Criteria.AttemptCriteria | cortex/internal/autonomy/controller.go:150-304 | All guards of a mutation in terms of settings, plan, clock and readings |
| Criteria.StopCriteria | cortex/internal/autonomy/controller.go:171-276 | Exactly when a recent revision leads to cooldown, a failed query, an observation or a request for approval |
| Criteria.RemediationCriterion | cortex/internal/autonomy/controller.go:315-344 | Exactly when a confirmed and rolled-out rollback is cancelled or called a remediation, error rate and latency in plain numbers |
| Incidents.FirstCycle | cortex/internal/autonomy/controller.go:302-345 | On one outage, with revisions 9 and 10 and a new log, a controller remediates; with the reply lost it reports an error, counts nothing as executed and leaves the previous images; cancelled, it reports that and leaves them too; the log holds exactly the actions of each case |
| Histories.NoUnguardedMutation | cortex/internal/autonomy/controller.go:150-304 | Among all requests of a lawful history each real patch comes right after an accepted dry run of the same images, both of one cycle with execution enabled, an unprotected namespace, a recent revision, an elapsed cooldown, an exhausted budget, persistence, confidence, replicas and swappable images |
| Histories.UndoFollowsFailure | cortex/internal/autonomy/controller.go:310-354 | A third request in a cycle means the second, the real rollback, was answered well and landed, and its verification failed |
| Histories.UndoIsInverse | cortex/internal/autonomy/controller.go:347-360 | Once a compensation took effect every container of the plan has its original image, and when nobody changed images in between they are exactly the original ones |
| Histories.SlotIsPosition | cortex/internal/autonomy/controller.go:133-360 | Every step of the mutating path has one fixed place in a cycle |
| Histories.SinglePatch | cortex/internal/autonomy/controller.go:302-354 | At most one real rollback patch and at most one real compensation among the requests of a cycle |
| Histories.RequestIsLawful | cortex/internal/autonomy/controller.go:289-354 | Requests of a cycle alternate between dry run and real patch, first with the planned version and the previous images, then with the original images; the real rollback that takes effect finds the planned revision and leaves exactly the previous images |
| Histories.RequestFollows | cortex/internal/autonomy/controller.go:289-354 | No request is sent before the one before it was answered well |
| Histories.AttemptIsSent | cortex/internal/autonomy/controller.go:304-306 | A cycle counts as an attempt exactly when its real rollback request was sent |
| Histories.SampleIff | cortex/internal/autonomy/controller.go:166-192 | A finished cycle counts exactly one sample, the one it read, when nothing stops it before, and none otherwise |
| Histories.DefaultBarNeedsEvidence | cortex/internal/autonomy/controller.go:238-257 | The default threshold is met exactly with traces, or logs, or latency plus full readiness, and never without an exhausted budget |
| Histories.TrailIsWord | cortex/internal/autonomy/controller.go:150-360 | The audit calls of one cycle form one of the allowed words |
| Histories.TrailPrefixBalanced | cortex/internal/autonomy/controller.go:261-360 | In any prefix of any concatenation of allowed words, compensated <= verification_failed <= execute_rollback <= guardrails_passed and verified + verification_failed <= execute_rollback |
| Histories.AuditTrailGrammar | cortex/internal/autonomy/controller.go:150-360 | The trail of any lawful history is such a concatenation, so every prefix of it is balanced |
| Histories.StreakSnoc | cortex/internal/autonomy/controller.go:182-192 | The counter update turns the longest bad suffix into the longest bad suffix of the history one sample longer |
| Histories.AttemptsAreProvoked | cortex/internal/autonomy/controller.go:265-304 | Every cycle with a real attempt ends a run of at least the required number of exhausted samples, all of the planned revision |
| Histories.MutationSpacing | cortex/internal/autonomy/controller.go:171-175 | Real attempts i and j of a history lie at least (j - i) cooldowns apart, for any non-zero clock readings |
| Histories.AttemptIsRested | cortex/internal/autonomy/controller.go:171-175 | No cycle attempts a rollback while the cooldown of an earlier attempt runs |
| AuditedHistories.VerifiedFileIsConsistent | cortex/internal/autonomy/controller.go:397-401 | Beyond the earlier log, a file that verifies and ends in a MAC of this one holds a beginning of the trail, balanced wherever it was cut |
| AuditedHistories.ControllerLog | cortex/internal/autonomy/controller.go:397-401 | In every reachable state of a controller whose appends landed, its log file ends in its trail, and any verified file ending in one of its MACs tells a balanced beginning of it |
| AuditedHistories.RecordedActions | cortex/internal/audit/chain.go:59-93 | The log is what it was before, followed by the actions of the trail, exactly when every append the controller made landed |
| AuditedHistories.LoggedWords | cortex/internal/autonomy/controller.go:150-358 | What each ending of a cycle leaves in the log, word for word |
| Autonomy.Defaults | cortex/internal/autonomy/controller.go:42-67 | The settings with every unset field filled, whatever the order of the tests |
| Autonomy.DefaultedFills | cortex/internal/autonomy/controller.go:42-67 | No field stays unset, complete settings are fixed points, and defaulting twice adds nothing |
| Autonomy.NamesTellActions | cortex/internal/autonomy/controller.go:150-358 | Different audit actions have different names |
| Autonomy.Protected | cortex/internal/autonomy/controller.go:362-369 | True exactly for listed namespaces |
| Autonomy.SameKeys | cortex/internal/autonomy/controller.go:370-380 | Equal sizes and one inclusion decide equality of the key sets |
| Autonomy.EqualImages | cortex/internal/autonomy/controller.go:382-392 | Compares with missing keys read as empty; equality of maps once the key sets are equal |
| Autonomy.EqualImagesIsNotEquality | cortex/internal/autonomy/controller.go:382-392 | Alone, the comparison accepts two different maps |
| Autonomy.ImagesGuard | cortex/internal/autonomy/controller.go:283-288 | Passes exactly for non-empty equal key sets with different maps |
| Kubernetes.CollectImages | cortex/internal/kubernetes/client.go:290-296 | The image map of a container list |
| Kubernetes.ImagesAreLast | cortex/internal/kubernetes/client.go:290-296 | Each name has the image of its last container, and no other name has any |
| Kubernetes.MergeIsMapMerge | cortex/internal/kubernetes/client.go:216-233 | A strategic merge of container lists acts on images as a map merge |
| Kubernetes.ContainerList | cortex/internal/kubernetes/client.go:217-225 | The container list of a patch body carries exactly the given images |
| Kubernetes.Client.PatchImages | cortex/internal/kubernetes/client.go:216-233 | Succeeds exactly when answered at the named version; takes effect only there and only when not a dry run, merging exactly the given images |
| Kubernetes.Client.PatchCurrentImages | cortex/internal/kubernetes/client.go:311-320 | Works on any version it reads, and fails on a write between its read and its patch |
| Kubernetes.Client.WaitReady | cortex/internal/kubernetes/client.go:235-255 | True exactly when some answered poll saw the rollout complete, and the deployment is rolled out at that moment |
| Kubernetes.RolloutMeans | cortex/internal/kubernetes/client.go:235-255 | The rollout test in terms of generation, wanted, updated and ready replicas, boundaries included |
| Kubernetes.StaleStatusWaits | cortex/internal/kubernetes/client.go:241-243 | The status from before a patch never passes for its rollout |
| Kubernetes.Client.PlanRollback | cortex/internal/kubernetes/client.go:171-214 | With successful reads, fails exactly when no owned earlier revision exists and otherwise plans for the newest one, on the deployment as read |
| Kubernetes.SelectTarget | cortex/internal/kubernetes/client.go:184-213 | Picks the greatest positive revision below the current one among owned ReplicaSets, or reports that there is none |
| Kubernetes.PlanIgnoresListOrder | cortex/internal/kubernetes/client.go:190-213 | With distinct owned revisions the whole plan is independent of the order of the list |
| Revisions.AtoiOfText | cortex/internal/kubernetes/client.go:176-201 | What parsing makes of any text, cut into sign, digits and rest: the number brought into 64 bits, or 0 |
| Revisions.AtoiOfDecimal | cortex/internal/kubernetes/client.go:176-201 | Printing and parsing a number is exact up to 64 bits and saturates beyond, with either sign |
| Revisions.AtoiOfTail | cortex/internal/kubernetes/client.go:176-201 | A numeral followed by something else reads as 0, except that one beyond 64 bits reads as the greatest integer |
| Revisions.PlanInNumbers | cortex/internal/kubernetes/client.go:176-213 | With printed revisions the plan goes back to the greatest positive one below the current among the deployment's own ReplicaSets, with its images |
| Revisions.NoTargetInNumbers | cortex/internal/kubernetes/client.go:177-211 | Nothing to go back to exactly when no own ReplicaSet carries a positive revision below the current one |
| Revisions.AgeInNumbers | cortex/internal/kubernetes/client.go:190-204 | The current revision's age is that of its own ReplicaSet, the last one listed |
| Revisions.UnknownAge | cortex/internal/kubernetes/client.go:185-204 | Without such a ReplicaSet the age is unknown |
| Kubernetes.LabelSelector | cortex/internal/kubernetes/client.go:297-308 | Prints the pairs in key order |
| Kubernetes.SelectorRoundTrip | cortex/internal/kubernetes/client.go:297-308 | Splitting at commas and first equals signs recovers the map exactly when no key holds a separator and no value a comma |
| Kubernetes.SelectorFaithful | cortex/internal/kubernetes/client.go:297-308 | The printed form is independent of map order, and injective on such maps |
| Kubernetes.SelectorCollision | cortex/internal/kubernetes/client.go:297-308 | With a comma in a value two different maps print alike |
| AuditChain.MacsDistinct | cortex/internal/audit/chain.go:69-91 | The MACs along a chain are pairwise distinct |
| AuditChain.Binding | cortex/internal/audit/chain.go:116-136 | Two accepted logs that end in the same MAC agree record for record and in length |
| AuditChain.TamperEvidence | cortex/internal/audit/chain.go:107-139 | An accepted sequence ending in an issued MAC is a prefix of the writer's log, record for record |
| AuditChain.OnlyPrefixesSurvive | cortex/internal/audit/chain.go:107-139 | Entries copied from a log are accepted exactly when they are a prefix of it: no reordering, duplication, deletion or splice passes |
| AuditChain.Verify | cortex/internal/audit/chain.go:107-139 | No error exactly for a present file of fitting, linked, correctly authenticated lines; otherwise exactly the fault of the first faulty line |
| AuditChain.FaultUnique | cortex/internal/audit/chain.go:107-139 | A file has one first fault, for one reason |
| AuditChain.FieldsAgree | cortex/internal/audit/chain.go:125-135 | Equal records mean equal instant, incident, action, previous and compacted payload: the MAC covers every field |
| AuditChain.EditFailsAtItsLine | cortex/internal/audit/chain.go:107-139 | Another content under an entry's MAC, in whichever field, or another MAC under its content, is reported at exactly that line |
| AuditChain.GarbageFailsAtItsLine | cortex/internal/audit/chain.go:107-139 | So is a line that is no entry, or too long |
| AuditChain.EditAcceptedIff | cortex/internal/audit/chain.go:107-139 | Under an entry's MAC exactly the layout of its payload can be edited unnoticed |
| AuditChain.Chain.Open | cortex/internal/audit/chain.go:31-57 | Resumes at the last MAC of a file that verifies, at the start without a file, and fails otherwise |
| AuditChain.Chain.Append | cortex/internal/audit/chain.go:59-93 | Each way an append can fail leaves file and `previous` in step |
| AuditChain.AppendOutcome | cortex/internal/audit/chain.go:59-93 | Field by field what each outcome of an append leaves in the file and in the writer; a failed sync still counts as written |
| AuditChain.StepCoherent | cortex/internal/audit/chain.go:31-93 | Every restart and append, failing or not, keeps the file one chain with the writer at its end |
| AuditChain.RoundTrip | cortex/internal/audit/chain.go:31-139 | After any interleaving of restarts and appends the file is one chain ending at `previous`, accepted exactly when every line fits the scanner |
| AuditChain.NothingLost | cortex/internal/audit/chain.go:83-91 | The file only grows |
| AuditChain.LogIsLandedDrafts | cortex/internal/audit/chain.go:59-93 | The log is exactly the landed appends, in order, each once |
| AuditChain.OversizedLineLocksOut | cortex/internal/audit/chain.go:41-43 | After one line beyond the scanner's limit every later restart fails |
| AuditChain.VerifiedFileIsHistory | cortex/internal/audit/chain.go:107-139 | A verified file ending in a MAC of a session is a beginning of what that session wrote |
| AuditChain.IdealExists | cortex/internal/audit/chain.go:69-93 | What the theorems ask of MAC and compaction can be had |
| Process.ProcessTable.Observe | src/process.rs:66-88 | The table stays the replay of all observed events |
| Process.ProcessTable.Lineage | src/process.rs:32-48 | Returns the bounded parent walk |
| Process.EntryIsLastEvent | src/process.rs:66-88 | An entry exists exactly when the process's last exec, fork or exit is not an exit, and is made from that event (`EntryFields`) |
| Process.EntryFields | src/process.rs:66-88 | Field by field what an entry takes from the last exec or fork of its process |
| Process.EntryHasEvent | src/process.rs:66-88 | Every entry has such an event |
| Process.LineageOverHistory | src/process.rs:32-48 | Over any history each process on a lineage is the parent its predecessor's last exec or fork named, and the lineage goes on exactly while depth, parent number and table allow |
| Process.LineageStarts | src/process.rs:32-48 | It is empty exactly for depth 0 or a process that is not running |
| Process.ChainOfThree | src/process.rs:128-141 | Three processes started below each other: the lineage of the last is all three, nearest first |
| Process.InterleavingIrrelevant | src/process.rs:66-88 | Histories with the same per-process projections give the same table |
| Process.WalkIsAncestors | src/process.rs:32-48 | Position n of the walk is the n-th ancestor, present exactly while there is one |
| Process.WalkClimbs | src/process.rs:32-48 | The walk starts at the process asked for and each next pid is the previous ppid |
| Process.WalkPrefix | src/process.rs:32-48 | A smaller depth gives a prefix; a walk shorter than its depth is final |
| Process.AcyclicWalkDistinct | src/process.rs:32-48 | On an acyclic table no pid repeats |
| Process.RisingIsAcyclic | src/process.rs:32-48 | Tables in which no parent has the greater number are acyclic |
| Process.AcyclicWalkEnds | src/process.rs:32-48 | On an acyclic table a depth of the table's size reaches the natural end |
| Process.CyclicWalkNeverEnds | src/process.rs:36-45 | A walk that comes upon a cycle anywhere fills any depth |
| Process.HasCommIff | src/detection.rs:102-110 | A name occurs on the walk exactly when a process of that name lies within its depth |
| Process.AncestorCondition | src/detection.rs:77-143 | A rule with an ancestor condition matches exactly when the rest matches and such a process lies within eight steps, cycles included |
| Process.MatchMeans | src/detection.rs:77-143 | A rule matches exactly when every condition it sets holds, prefixes and suffixes included |
| Process.DetectionsAreHistory | src/detection.rs:53-60 | Detections depend on the table only through per-process histories |
| Process.EvaluateConcat | src/detection.rs:53-60 | Rules are evaluated independently and in order |
| Process.EvaluateOne | src/detection.rs:53-75 | What a single rule adds: its own data, a score of at most 100, eight steps of lineage |
| Evidence.Graph.Add | cortex/internal/evidence/graph.go:50-57 | The graph stays the result of its history, one addition longer |
| Evidence.Graph.Link | cortex/internal/evidence/graph.go:59-70 | Accepted exactly when both ends are present |
| Evidence.Graph.Snapshot | cortex/internal/evidence/graph.go:72-87 | Every node once, strictly by time then id, nothing else, and both ends of every edge among them |
| Evidence.CanonicalUnique | cortex/internal/evidence/graph.go:75-84 | A node map has one such listing, whatever the map order and sort ties |
| Evidence.NodeIsLastAdded | cortex/internal/evidence/graph.go:50-57 | A node is listed exactly when added, with its last value |
| Evidence.EdgesClosed | cortex/internal/evidence/graph.go:59-70 | Both ends of every accepted edge stay in the graph |
| Evidence.ListingFromLastAdds | cortex/internal/evidence/graph.go:50-87 | Histories agreeing on the last node per id have the same listing |
| Evidence.ListingOrder | cortex/internal/evidence/graph.go:79-84 | Earlier observations first, then lexicographically smaller ids |
| Evidence.ListedFields | cortex/internal/evidence/graph.go:50-57 | Field by field a listed node is the last one added under its id, with missing attributes read as none |
| Evidence.EdgeMeans | cortex/internal/evidence/graph.go:59-70 | An edge is there exactly when linked at a moment when both ends had been added |
| Ordering.BelowIsLexicographic | cortex/internal/evidence/graph.go:79-84 | The order of strings is lexicographic |
| Slo.ExhaustedIff | cortex/internal/slo/budget.go:14-32 | The exact threshold at which the counter-based evaluator reports exhaustion |
| Slo.BudgetMeans | cortex/internal/slo/budget.go:9-33 | Every reported field of the counter-based budget, as the nearest millionth of its exact value |
| Slo.SilentBudgets | cortex/internal/slo/budget.go:10-23 | Without requests, or with an allowance that rounds away, nothing burns |
| Slo.ThreeNines | cortex/internal/slo/budget_test.go:10-28 | 150 failures in 100000 burn three nines one and a half times, 50 leave half |
| Slo.BudgetMonotone | cortex/internal/slo/budget.go:14-38 | Fewer good events never lower burn, raise the remainder or clear exhaustion, for any target |
| Slo.BudgetConserved | cortex/internal/slo/budget.go:14-38 | The remainder lies in [0, 1]; within the allowance burn and remainder add up to 1 or 1.000001; beyond it nothing remains |
| Slo.RateExhaustedIff | cortex/internal/slo/rate.go:16-33 | The rate-based evaluator is exhausted exactly when the bad events reach the unrounded allowance |
| Slo.RateMeans | cortex/internal/slo/rate.go:13-34 | Every reported field of the rate-based budget |
| Slo.RateOfNonsense | cortex/internal/slo/rate.go:13-16 | An objective outside (0, 1) is not evaluated |
| Slo.RateMonotone | cortex/internal/slo/rate.go:12-33 | Higher rates never look better; rates outside [0, 1] count as the nearer end |
| Slo.RateConserved | cortex/internal/slo/rate.go:12-33 | Short of exhaustion the rounded shares add up to 1 or 1.000001; at exhaustion nothing remains |
| Slo.DisagreeIff | cortex/internal/slo/budget.go:14-38 | The exact condition, on bad events and allowance, under which the two evaluators disagree on exhaustion |
| Slo.RoundingBand | cortex/internal/slo/budget.go:14-38 | Outside a band of about half a millionth around the allowance the two evaluators agree on exhaustion |
| Slo.BandIsReal | cortex/internal/slo/budget.go:14-38 | Inside the band they can disagree |
| Slo.TinyAllowanceIsSilent | cortex/internal/slo/budget.go:16-23 | An allowance that rounds to zero silences the counter-based evaluator only |
| Slo.TinyAllowanceIsReal | cortex/internal/slo/budget.go:16-23 | One failed request under a target of seven nines is such a case |
| Decision.Gather | cortex/internal/reasoning/reasoner.go:28-46 | One pass collects the best score, the three signals and the evidence of all detections |
| Decision.Investigate | cortex/internal/reasoning/reasoner.go:19-83 | The accumulated hypothesis in terms of the best score and the existence of signals |
| Decision.ConfidencePoints | cortex/internal/reasoning/reasoner.go:28-74 | The exact confidence in percent and the cause, from the greatest score, the signals and the number of detections |
| Decision.EvidenceMeans | cortex/internal/reasoning/reasoner.go:45-71 | The evidence lists every detection in order with its data, then whether there was more than one |
| Decision.DownloaderIsLastComponent | cortex/internal/reasoning/reasoner.go:85-93 | A downloader is told by the last component of a path |
| Decision.CaseIsIgnored | cortex/internal/reasoning/reasoner.go:85-111 | Upper and lower case do not matter |
| Decision.WebNames | cortex/internal/reasoning/reasoner.go:104-111 | The web processes in lower case |
| Decision.SignalsMean | cortex/internal/reasoning/reasoner.go:85-102 | Where the reasoner looks for both names |
| Decision.WorkloadTarget | cortex/internal/governor/governor.go:78-88 | The first detection that locates a workload decides, container before cgroup |
| Decision.TargetMeans | cortex/internal/governor/governor.go:78-88 | In terms of events: the first one that names a container, or else a cgroup |
| Decision.Plan | cortex/internal/governor/governor.go:57-75 | The verdict gate; executable mode exactly when guardrails pass; the target is that of the first detection locating a workload |
| Decision.Analyze | cortex/internal/agent/engine.go:26-40 | Composition of budget, hypothesis and gate |
| Decision.VerdictPoints | cortex/internal/governor/governor.go:57-75 | Each of the three verdicts exactly, from points, bar and counters |
| Decision.DefaultVerdictPoints | cortex/internal/governor/governor.go:57-75 | With the default bar: 92 points and a spent budget |
| Decision.NoDetections | cortex/internal/reasoning/reasoner.go:20-26 | Without detections there is nothing to act on |
| Decision.ConfidenceMonotone | cortex/internal/reasoning/reasoner.go:28-74 | More detections, in any order, never lower confidence or lose the compromise cause |
| Decision.VerdictMonotone | cortex/internal/agent/engine.go:26-30 | Adding detections anywhere and losing good events never lowers the verdict |
| Decision.OrderIrrelevant | cortex/internal/reasoning/reasoner.go:34-74 | Confidence, cause and verdict do not depend on the order of detections |
| Decision.SingleSignalPasses | cortex/internal/governor/governor.go:66-75 | The exact condition under which one detection passes the default guardrails |

## Left out

- Floating point: rates, confidences and budgets are exact reals; NaN and infinities do not occur.
- HTTP, TLS, tokens, URLs, the Prometheus, Loki and Tempo clients: their results are inputs of a cycle.
- JSON, SHA-256 and HMAC: a log line is an entry or not JSON at all, and the MAC is an injective function that never yields the empty string. Strings are valid text; unknown JSON fields on a line are not modelled.
- A second controller on the same client or auditor: other clients of the cluster are the outside writes of each exchange.
- Torn writes, two writers on one file, and a file changed between `Verify` and the second read in `New`.
- VerifiedFileIsConsistent: speaks of cycles whose appends all landed, because the controller drops append errors and a lost append leaves a gap no later entry shows (`RecordedActions` is exact about this).
- Removal of the end of a log: the checker cannot notice it, and prefixes are accepted (`OnlyPrefixesSurvive`).
- Other fields of containers and deployments that a strategic merge keeps, the rollback-at annotation, and deployments other than the one controlled.
- The context deadline of a rollout: it is the end of the list of polls.
- The evidence graph inside a controller cycle, incident ids, summaries and reason strings: no decision reads them.
- 64-bit overflow of counters and of the streak; time differences do saturate as in Go.
- `enrich`, BPF programs, container detection, policy loading, ingest, rendering and the command lines.
- The remaining text of remediations and proofs in the governor: constant strings.
- The mutexes: methods run one at a time.
